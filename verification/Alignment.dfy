// Matching a source's blocks, in order, against the stream of text a rendition of it
// holds.
module Alignment {
  import opened Text
  import Bisect

  /** How far ahead of the cursor a fresh match is looked for, in rendition blocks. */
  const MATCH_WINDOW_BLOCKS: nat := 400

  /** The shortest text that may be matched by prefix rather than in whole. */
  const MIN_PREFIX_CHARACTERS: nat := 16

  /** A half-open range of the rendition's stream. */
  datatype Run = Run(start: nat, end: nat)

  // ----- blocks and the stream they make ----------------------------------------------

  /** Where block k begins in the concatenation of the blocks. */
  function Bound(blocks: seq<string>, k: nat): (b: nat)
    requires k <= |blocks|
  {
    if k == 0 then 0 else Bound(blocks, k - 1) + |blocks[k - 1]|
  }

  function Bounds(blocks: seq<string>): (bounds: seq<int>)
    ensures |bounds| == |blocks| && Bisect.Ascending(bounds)
    ensures forall k :: 0 <= k < |blocks| ==> bounds[k] == Bound(blocks, k)
  {
    forall i, j | 0 <= i < j < |blocks| ensures Bound(blocks, i) <= Bound(blocks, j) {
      BoundsAscend(blocks, i, j);
    }
    seq(|blocks|, k requires 0 <= k < |blocks| => Bound(blocks, k))
  }

  lemma {:induction false} BoundsAscend(blocks: seq<string>, i: nat, j: nat)
    requires i <= j <= |blocks|
    ensures Bound(blocks, i) <= Bound(blocks, j)
    decreases j
  {
    if i < j { BoundsAscend(blocks, i, j - 1); }
  }

  /** str.startswith(part, at) */
  predicate StartsWith(s: string, part: string, at: nat) {
    at + |part| <= |s| && s[at..at + |part|] == part
  }

  /** Block k holds text, and begins here, or ends here. */
  predicate BeginsAt(blocks: seq<string>, k: nat, offset: nat) {
    k < |blocks| && blocks[k] != "" && Bound(blocks, k) == offset
  }

  predicate EndsAt(blocks: seq<string>, k: nat, offset: nat) {
    k < |blocks| && blocks[k] != "" && Bound(blocks, k) + |blocks[k]| == offset
  }

  predicate StartFrom(blocks: seq<string>, offset: nat, k: nat)
    decreases |blocks| - k
  {
    k < |blocks| && (BeginsAt(blocks, k, offset) || StartFrom(blocks, offset, k + 1))
  }

  predicate EndFrom(blocks: seq<string>, offset: nat, k: nat)
    decreases |blocks| - k
  {
    k < |blocks| && (EndsAt(blocks, k, offset) || EndFrom(blocks, offset, k + 1))
  }

  /** Some block that holds text begins here, or ends here. */
  predicate IsStart(blocks: seq<string>, offset: nat) {
    StartFrom(blocks, offset, 0)
  }

  predicate IsEnd(blocks: seq<string>, offset: nat) {
    EndFrom(blocks, offset, 0)
  }

  lemma {:induction false} StartIs(blocks: seq<string>, offset: nat, k: nat) returns (j: nat)
    requires StartFrom(blocks, offset, k)
    ensures BeginsAt(blocks, j, offset)
    decreases |blocks| - k
  {
    if BeginsAt(blocks, k, offset) { j := k; } else { j := StartIs(blocks, offset, k + 1); }
  }

  lemma {:induction false} BeginsIsStart(blocks: seq<string>, offset: nat, k: nat, j: nat)
    requires k <= j && BeginsAt(blocks, j, offset)
    ensures StartFrom(blocks, offset, k)
    decreases j - k
  {
    if k < j { BeginsIsStart(blocks, offset, k + 1, j); }
  }

  lemma {:induction false} EndsIsEnd(blocks: seq<string>, offset: nat, k: nat, j: nat)
    requires k <= j && EndsAt(blocks, j, offset)
    ensures EndFrom(blocks, offset, k)
    decreases j - k
  {
    if k < j { EndsIsEnd(blocks, offset, k + 1, j); }
  }

  /** Block k holds the character at this stream position. */
  predicate Holds(blocks: seq<string>, k: nat, offset: nat) {
    k < |blocks| && Bound(blocks, k) <= offset < Bound(blocks, k) + |blocks[k]|
  }

  // ----- the walk, as a function --------------------------------------------------------

  /** The next source text that is not empty, or "". */
  function NextText(source: seq<string>, after: nat): string
    decreases |source| - after
  {
    if after + 1 >= |source| then ""
    else if source[after + 1] != "" then source[after + 1]
    else NextText(source, after + 1)
  }

  function Head(s: string, n: nat): string {
    if |s| <= n then s else s[..n]
  }

  /** A match that ends inside a block needs to be long, or to be followed by what comes
      next in the source. */
  predicate Accepted(source: seq<string>, number: nat, rendered: seq<string>, end: nat)
    requires number < |source|
  {
    || |source[number]| >= MIN_PREFIX_CHARACTERS
    || IsEnd(rendered, end)
    || var follower := NextText(source, number);
       follower != "" && StartsWith(Concat(rendered), Head(follower, MIN_PREFIX_CHARACTERS), end)
  }

  /** Characters of `text` taken by whole blocks from `probe` on, `taken` being those taken
      already. */
  function WholeBlocks(text: string, rendered: seq<string>, probe: nat, taken: nat): nat
    decreases |rendered| - probe
  {
    if probe < |rendered| && StartsWith(text, rendered[probe], taken) then
      WholeBlocks(text, rendered, probe + 1, taken + |rendered[probe]|)
    else taken
  }

  /** What one block start offers: the text in full, or failing that whole blocks of it. */
  function Try(source: seq<string>, number: nat, rendered: seq<string>, index: nat): Option<Run>
    requires number < |source| && index < |rendered|
  {
    var text, start := source[number], Bound(rendered, index);
    if rendered[index] == "" then None
    else if StartsWith(Concat(rendered), text, start) then
      if Accepted(source, number, rendered, start + |text|) then Some(Run(start, start + |text|)) else None
    else
      var taken := WholeBlocks(text, rendered, index, 0);
      if taken >= MIN_PREFIX_CHARACTERS then Some(Run(start, start + taken)) else None
  }

  /** The first of the block starts below `limit` that offers a run. */
  function Fresh(source: seq<string>, number: nat, rendered: seq<string>, index: nat, limit: nat): Option<Run>
    requires number < |source| && limit <= |rendered|
    decreases limit - index
  {
    if index >= limit then None
    else
      var run := Try(source, number, rendered, index);
      if run.Some? then run else Fresh(source, number, rendered, index + 1, limit)
  }

  predicate Pinned(rendered: seq<string>, cursor: nat) {
    0 < cursor < |Concat(rendered)| && !IsStart(rendered, cursor)
  }

  /** The first block from k on that begins at or past the cursor. */
  function FirstFrom(rendered: seq<string>, cursor: nat, k: nat): (first: nat)
    requires k <= |rendered|
    ensures k <= first <= |rendered|
    decreases |rendered| - k
  {
    if k == |rendered| || Bound(rendered, k) >= cursor then k else FirstFrom(rendered, cursor, k + 1)
  }

  function FirstFresh(rendered: seq<string>, cursor: nat): (first: nat)
    ensures first <= |rendered|
  {
    FirstFrom(rendered, cursor, 0)
  }

  lemma {:induction false} FirstFromIs(rendered: seq<string>, cursor: nat, k: nat)
    requires k <= |rendered|
    ensures var first := FirstFrom(rendered, cursor, k);
            && (first < |rendered| ==> Bound(rendered, first) >= cursor)
            && forall i :: k <= i < first ==> Bound(rendered, i) < cursor
    decreases |rendered| - k
  {
    if k < |rendered| && Bound(rendered, k) < cursor { FirstFromIs(rendered, cursor, k + 1); }
  }

  /** It is where bisect_right puts the position before the cursor. */
  lemma FirstIsRight(rendered: seq<string>, cursor: nat)
    ensures FirstFresh(rendered, cursor) == if cursor == 0 then 0 else Bisect.Right(Bounds(rendered), cursor - 1)
  {
    if cursor > 0 {
      var first, right := FirstFresh(rendered, cursor), Bisect.Right(Bounds(rendered), cursor - 1);
      FirstFromIs(rendered, cursor, 0);
      var bounds := Bounds(rendered);
      assert forall k :: 0 <= k < |rendered| ==> bounds[k] == Bound(rendered, k);
      assert right <= first && first <= right;
    }
  }

  function Window(rendered: seq<string>, first: nat): (limit: nat)
    ensures limit <= |rendered|
  {
    if first + MATCH_WINDOW_BLOCKS < |rendered| then first + MATCH_WINDOW_BLOCKS else |rendered|
  }

  /** Where source block `number` is, given that everything before it ended at `cursor`. */
  function Match(source: seq<string>, number: nat, rendered: seq<string>, cursor: nat): Option<Run>
    requires number < |source|
  {
    var text := source[number];
    if text == "" then None
    else if Pinned(rendered, cursor) && StartsWith(Concat(rendered), text, cursor) then
      Some(Run(cursor, cursor + |text|))
    else
      var first := FirstFresh(rendered, cursor);
      Fresh(source, number, rendered, first, Window(rendered, first))
  }

  function Runs(source: seq<string>, number: nat, rendered: seq<string>, cursor: nat): (runs: seq<Option<Run>>)
    requires number <= |source|
    ensures |runs| == |source| - number
    decreases |source| - number
  {
    if number == |source| then []
    else
      var run := Match(source, number, rendered, cursor);
      [run] + Runs(source, number + 1, rendered, if run.Some? then run.value.end else cursor)
  }

  // ----- the walk, as the code runs it ----------------------------------------------------

  /** The block that holds a stream position. The code then steps back over empty blocks;
      the last bound at or below a position in the stream is never an empty block's, so
      that step does nothing and is not written here. */
  method BlockAt(rendered: seq<string>, bounds: seq<int>, offset: nat) returns (index: nat)
    requires bounds == Bounds(rendered) && offset < |Concat(rendered)|
    ensures Holds(rendered, index, offset)
  {
    ConcatLength(rendered);
    var right := Bisect.Right(bounds, offset);
    assert right > 0 by {
      assert rendered != [];
      assert bounds[0] == 0;
    }
    index := right - 1;
    assert Bound(rendered, right) == Bound(rendered, index) + |rendered[index]|;
  }

  lemma {:induction false} ConcatLengthTo(blocks: seq<string>, k: nat)
    requires k <= |blocks|
    ensures |Concat(blocks[..k])| == Bound(blocks, k)
  {
    if k > 0 {
      ConcatLengthTo(blocks, k - 1);
      assert blocks[..k] == blocks[..k - 1] + [blocks[k - 1]];
      ConcatAppend(blocks[..k - 1], [blocks[k - 1]]);
      ConcatCons(blocks[k - 1], []);
    }
  }

  lemma ConcatLength(blocks: seq<string>)
    ensures |Concat(blocks)| == Bound(blocks, |blocks|)
  {
    ConcatLengthTo(blocks, |blocks|);
    assert blocks[..|blocks|] == blocks;
  }

  /** The blocks that hold the ends of each run. */
  ghost predicate Reports(matched: Option<(nat, nat)>, run: Option<Run>, rendered: seq<string>) {
    match run
    case None => matched.None?
    case Some(r) =>
      && matched.Some? && r.start < r.end
      && Holds(rendered, matched.value.0, r.start) && Holds(rendered, matched.value.1, r.end - 1)
  }

  /** How many characters of the text the blocks from `index` on take whole. */
  method TakeWholeBlocks(text: string, rendered: seq<string>, index: nat) returns (taken: nat)
    ensures taken == WholeBlocks(text, rendered, index, 0)
  {
    taken := 0;
    var probe := index;
    while probe < |rendered| && StartsWith(text, rendered[probe], taken)
      invariant WholeBlocks(text, rendered, probe, taken) == WholeBlocks(text, rendered, index, 0)
      decreases |rendered| - probe
    {
      taken := taken + |rendered[probe]|;
      probe := probe + 1;
    }
  }

  method TryBlock(source: seq<string>, number: nat, rendered: seq<string>, bounds: seq<int>, index: nat)
    returns (found: Option<Run>)
    requires number < |source| && index < |rendered| && bounds == Bounds(rendered)
    ensures found == Try(source, number, rendered, index)
  {
    if rendered[index] == "" { return None; }
    var text, start := source[number], bounds[index];
    if StartsWith(Concat(rendered), text, start) {
      if Accepted(source, number, rendered, start + |text|) {
        return Some(Run(start, start + |text|));
      }
      return None;
    }
    var taken := TakeWholeBlocks(text, rendered, index);
    if taken >= MIN_PREFIX_CHARACTERS {
      return Some(Run(start, start + taken));
    }
    return None;
  }

  method FindFresh(source: seq<string>, number: nat, rendered: seq<string>, bounds: seq<int>,
                   first: nat, limit: nat) returns (found: Option<Run>)
    requires number < |source| && limit <= |rendered| && bounds == Bounds(rendered)
    ensures found == Fresh(source, number, rendered, first, limit)
  {
    var index := first;
    while index < limit
      invariant Fresh(source, number, rendered, index, limit) == Fresh(source, number, rendered, first, limit)
    {
      found := TryBlock(source, number, rendered, bounds, index);
      if found.Some? { return; }
      index := index + 1;
    }
    found := None;
  }

  method FindMatch(source: seq<string>, number: nat, rendered: seq<string>, bounds: seq<int>, cursor: nat)
    returns (found: Option<Run>)
    requires number < |source| && bounds == Bounds(rendered)
    ensures found == Match(source, number, rendered, cursor)
  {
    var text, stream := source[number], Concat(rendered);
    if text == "" { return None; }
    var pinned := 0 < cursor < |stream| && !IsStart(rendered, cursor);
    if pinned && StartsWith(stream, text, cursor) {
      return Some(Run(cursor, cursor + |text|));
    }
    var first := if cursor == 0 then 0 else Bisect.Right(bounds, cursor - 1);
    FirstIsRight(rendered, cursor);
    found := FindFresh(source, number, rendered, bounds, first, Window(rendered, first));
  }

  method Report(rendered: seq<string>, bounds: seq<int>, found: Option<Run>) returns (matched: Option<(nat, nat)>)
    requires bounds == Bounds(rendered)
    requires found.Some? ==> found.value.start < found.value.end <= |Concat(rendered)|
    ensures Reports(matched, found, rendered)
  {
    if found.None? { return None; }
    var a := BlockAt(rendered, bounds, found.value.start);
    var b := BlockAt(rendered, bounds, found.value.end - 1);
    matched := Some((a, b));
  }

  ghost predicate AllReported(matched: seq<Option<(nat, nat)>>, runs: seq<Option<Run>>, rendered: seq<string>) {
    |matched| == |runs| && forall n :: 0 <= n < |runs| ==> Reports(matched[n], runs[n], rendered)
  }

  method AlignRuns(source: seq<string>, rendered: seq<string>) returns (matched: seq<Option<(nat, nat)>>)
    ensures AllReported(matched, Runs(source, 0, rendered, 0), rendered)
  {
    var bounds := Bounds(rendered);
    matched := [];
    var cursor: nat := 0;
    ghost var runs: seq<Option<Run>> := [];
    for number := 0 to |source|
      invariant AllReported(matched, runs, rendered)
      invariant runs + Runs(source, number, rendered, cursor) == Runs(source, 0, rendered, 0)
    {
      var found := FindMatch(source, number, rendered, bounds, cursor);
      MatchSound(source, number, rendered, cursor);
      var report := Report(rendered, bounds, found);
      ghost var next := if found.Some? then found.value.end else cursor;
      Associate(runs, [found], Runs(source, number + 1, rendered, next));
      matched := matched + [report];
      runs := runs + [found];
      if found.Some? {
        cursor := found.value.end;
      }
    }
  }

  // ----- soundness ------------------------------------------------------------------------------

  lemma {:induction false} StreamBetween(blocks: seq<string>, i: nat, j: nat)
    requires i <= j <= |blocks|
    ensures Bound(blocks, i) <= Bound(blocks, j) <= |Concat(blocks)|
    ensures Concat(blocks)[Bound(blocks, i)..Bound(blocks, j)] == Concat(blocks[i..j])
  {
    assert blocks == blocks[..i] + (blocks[i..j] + blocks[j..]);
    ConcatAppend(blocks[..i], blocks[i..j] + blocks[j..]);
    ConcatAppend(blocks[i..j], blocks[j..]);
    ConcatLengthTo(blocks, i);
    ConcatLengthTo(blocks, j);
    assert blocks[..j] == blocks[..i] + blocks[i..j];
    ConcatAppend(blocks[..i], blocks[i..j]);
  }

  lemma {:induction false} StreamBlock(blocks: seq<string>, k: nat)
    requires k < |blocks|
    ensures StartsWith(Concat(blocks), blocks[k], Bound(blocks, k))
  {
    StreamBetween(blocks, k, k + 1);
    assert blocks[k..k + 1] == [blocks[k]];
    ConcatCons(blocks[k], []);
  }

  /** The stream from block i up to block j is a prefix of the text. */
  ghost predicate PrefixBlocks(text: string, rendered: seq<string>, i: nat, j: nat) {
    i <= j <= |rendered| && Concat(rendered[i..j]) <= text
  }

  /** One more block that the text goes on with. */
  lemma OneBlockMore(text: string, rendered: seq<string>, index: nat, probe: nat)
    requires PrefixBlocks(text, rendered, index, probe) && probe < |rendered|
    requires StartsWith(text, rendered[probe], |Concat(rendered[index..probe])|)
    ensures PrefixBlocks(text, rendered, index, probe + 1)
    ensures |Concat(rendered[index..probe + 1])| == |Concat(rendered[index..probe])| + |rendered[probe]|
  {
    var taken := |Concat(rendered[index..probe])|;
    assert rendered[index..probe + 1] == rendered[index..probe] + [rendered[probe]];
    ConcatAppend(rendered[index..probe], [rendered[probe]]);
    ConcatCons(rendered[probe], []);
    assert text[..taken] + text[taken..taken + |rendered[probe]|] == text[..taken + |rendered[probe]|];
  }

  lemma {:induction false} WholeBlocksSound(text: string, rendered: seq<string>, index: nat, probe: nat) returns (j: nat)
    requires PrefixBlocks(text, rendered, index, probe)
    ensures probe <= j && PrefixBlocks(text, rendered, index, j)
    ensures WholeBlocks(text, rendered, probe, |Concat(rendered[index..probe])|)
         == Bound(rendered, j) - Bound(rendered, index) == |Concat(rendered[index..j])|
    decreases |rendered| - probe
  {
    StreamBetween(rendered, index, probe);
    var taken := |Concat(rendered[index..probe])|;
    if probe < |rendered| && StartsWith(text, rendered[probe], taken) {
      OneBlockMore(text, rendered, index, probe);
      j := WholeBlocksSound(text, rendered, index, probe + 1);
    } else {
      j := probe;
    }
  }

  /** A run holds its source text exactly, or a prefix of at least sixteen characters made of
      whole blocks. */
  ghost predicate Located(run: Run, text: string, rendered: seq<string>) {
    var stream := Concat(rendered);
    && run.start < run.end <= |stream|
    && (|| stream[run.start..run.end] == text
        || (&& run.end - run.start >= MIN_PREFIX_CHARACTERS
            && stream[run.start..run.end] <= text
            && exists i, j :: 0 <= i < j <= |rendered|
                 && Bound(rendered, i) == run.start && Bound(rendered, j) == run.end))
  }

  lemma {:induction false} FreshSound(source: seq<string>, number: nat, rendered: seq<string>, index: nat, limit: nat)
    requires number < |source| && limit <= |rendered| && source[number] != ""
    ensures var run := Fresh(source, number, rendered, index, limit);
            run.Some? ==> Located(run.value, source[number], rendered)
                          && index < |rendered| && run.value.start >= Bound(rendered, index)
    decreases limit - index
  {
    if index < limit {
      var text, start := source[number], Bound(rendered, index);
      FreshSound(source, number, rendered, index + 1, limit);
      if index + 1 < |rendered| { BoundsAscend(rendered, index, index + 1); }
      if rendered[index] != "" && !StartsWith(Concat(rendered), text, start) {
        assert rendered[index..index] == [];
        var j := WholeBlocksSound(text, rendered, index, index);
        StreamBetween(rendered, index, j);
        if WholeBlocks(text, rendered, index, 0) >= MIN_PREFIX_CHARACTERS {
          assert index < j;
        }
      }
    }
  }

  lemma MatchSound(source: seq<string>, number: nat, rendered: seq<string>, cursor: nat)
    requires number < |source|
    ensures var run := Match(source, number, rendered, cursor);
            run.Some? ==> Located(run.value, source[number], rendered) && cursor <= run.value.start
  {
    if source[number] != "" {
      var first := FirstFresh(rendered, cursor);
      FirstFromIs(rendered, cursor, 0);
      FreshSound(source, number, rendered, first, Window(rendered, first));
    }
  }

  /** Every located run holds its text, at or after the cursor, and the runs ascend without
      touching each other's characters. */
  ghost predicate Monotone(runs: seq<Option<Run>>, texts: seq<string>, rendered: seq<string>, cursor: nat) {
    && |runs| == |texts|
    && (runs != [] ==>
          match runs[0]
          case None => Monotone(runs[1..], texts[1..], rendered, cursor)
          case Some(r) =>
            && Located(r, texts[0], rendered) && cursor <= r.start
            && Monotone(runs[1..], texts[1..], rendered, r.end))
  }

  lemma {:induction false} RunsSound(source: seq<string>, number: nat, rendered: seq<string>, cursor: nat)
    requires number <= |source|
    ensures Monotone(Runs(source, number, rendered, cursor), source[number..], rendered, cursor)
    decreases |source| - number
  {
    if number < |source| {
      MatchSound(source, number, rendered, cursor);
      var run := Match(source, number, rendered, cursor);
      RunsSound(source, number + 1, rendered, if run.Some? then run.value.end else cursor);
      assert source[number..][1..] == source[number + 1..];
    }
  }

  /** Read off pairwise: of any two located runs the earlier one ends before the later one
      begins. */
  lemma {:induction false} MonotonePairs(runs: seq<Option<Run>>, texts: seq<string>, rendered: seq<string>, cursor: nat)
    requires Monotone(runs, texts, rendered, cursor)
    ensures forall i :: 0 <= i < |runs| && runs[i].Some? ==>
              Located(runs[i].value, texts[i], rendered) && cursor <= runs[i].value.start
    ensures forall i, j :: 0 <= i < j < |runs| && runs[i].Some? && runs[j].Some? ==>
              runs[i].value.end <= runs[j].value.start
    decreases |runs|
  {
    if runs != [] {
      var next := if runs[0].Some? then runs[0].value.end else cursor;
      MonotonePairs(runs[1..], texts[1..], rendered, next);
      assert forall i :: 1 <= i < |runs| ==> runs[i] == runs[1..][i - 1] && texts[i] == texts[1..][i - 1];
    }
  }

  /** What the alignment of any two block lists promises. */
  lemma AlignmentSound(source: seq<string>, rendered: seq<string>)
    ensures var runs := Runs(source, 0, rendered, 0);
            && (forall n :: 0 <= n < |runs| && runs[n].Some? ==> Located(runs[n].value, source[n], rendered))
            && (forall i, j :: 0 <= i < j < |runs| && runs[i].Some? && runs[j].Some? ==>
                  runs[i].value.end <= runs[j].value.start)
  {
    RunsSound(source, 0, rendered, 0);
    assert source[0..] == source;
    MonotonePairs(Runs(source, 0, rendered, 0), source, rendered, 0);
  }

  // ----- completeness on re-cuts -------------------------------------------------------------------

  predicate TextWithin(blocks: seq<string>, i: nat) {
    exists j :: i <= j < i + MATCH_WINDOW_BLOCKS && j < |blocks| && blocks[j] != ""
  }

  /** Four hundred empty blocks never follow each other. */
  predicate NoLongGap(blocks: seq<string>) {
    forall i :: 0 <= i <= |blocks| - MATCH_WINDOW_BLOCKS ==> TextWithin(blocks, i)
  }

  /** The first block at or after i that holds text, or the number of blocks. */
  function FirstText(blocks: seq<string>, i: nat): (k: nat)
    requires i <= |blocks|
    ensures i <= k <= |blocks| && (k < |blocks| ==> blocks[k] != "")
    ensures forall j :: i <= j < k ==> blocks[j] == ""
    ensures Bound(blocks, k) == Bound(blocks, i)
    decreases |blocks| - i
  {
    if i == |blocks| || blocks[i] != "" then i else FirstText(blocks, i + 1)
  }

  /** At a block boundary the fresh search begins at that boundary. */
  lemma FirstAtBoundary(rendered: seq<string>, cursor: nat)
    requires cursor == 0 || IsStart(rendered, cursor)
    ensures Bound(rendered, FirstFresh(rendered, cursor)) == cursor
  {
    if cursor > 0 {
      var k := StartIs(rendered, cursor, 0);
      var first := FirstFresh(rendered, cursor);
      FirstFromIs(rendered, cursor, 0);
      assert first <= k;
      BoundsAscend(rendered, first, k);
    }
  }

  /** ... and reaches the block that holds text there within the window. */
  lemma BlockAtBoundary(rendered: seq<string>, cursor: nat) returns (k: nat)
    requires NoLongGap(rendered) && cursor < |Concat(rendered)|
    requires cursor == 0 || IsStart(rendered, cursor)
    ensures var first := FirstFresh(rendered, cursor);
            && first <= k < Window(rendered, first) && rendered[k] != "" && Bound(rendered, k) == cursor
            && forall j :: first <= j < k ==> rendered[j] == ""
  {
    var first := FirstFresh(rendered, cursor);
    FirstAtBoundary(rendered, cursor);
    k := FirstText(rendered, first);
    ConcatLength(rendered);
    if first + MATCH_WINDOW_BLOCKS <= |rendered| {
      assert TextWithin(rendered, first);
    }
  }

  lemma {:induction false} FreshSkipsEmpty(source: seq<string>, number: nat, rendered: seq<string>,
                                           index: nat, k: nat, limit: nat)
    requires number < |source| && index <= k < limit <= |rendered|
    requires forall j :: index <= j < k ==> rendered[j] == ""
    ensures Fresh(source, number, rendered, index, limit) == Fresh(source, number, rendered, k, limit)
    decreases k - index
  {
    if index < k { FreshSkipsEmpty(source, number, rendered, index + 1, k, limit); }
  }

  /** What follows a source block in the concatenation is the next text, or nothing. */
  lemma {:induction false} FollowerFollows(source: seq<string>, number: nat)
    requires number < |source|
    ensures var follower, end := NextText(source, number), Bound(source, number + 1);
            if follower == "" then end == |Concat(source)| else StartsWith(Concat(source), follower, end)
    decreases |source| - number
  {
    if number + 1 == |source| {
      ConcatLength(source);
    } else if source[number + 1] != "" {
      StreamBlock(source, number + 1);
    } else {
      FollowerFollows(source, number + 1);
    }
  }

  lemma {:induction false} StreamEnds(blocks: seq<string>, k: nat)
    requires 0 < k <= |blocks| && Bound(blocks, k) > 0
    ensures IsEnd(blocks, Bound(blocks, k))
    decreases k
  {
    if blocks[k - 1] == "" {
      StreamEnds(blocks, k - 1);
    } else {
      EndsIsEnd(blocks, Bound(blocks, k), 0, k - 1);
    }
  }

  /** A block whose text stands at its own position, followed by what follows it there, is
      taken whole. */
  lemma TakenWhole(source: seq<string>, number: nat, rendered: seq<string>, k: nat)
    requires number < |source| && source[number] != "" && k < |rendered| && rendered[k] != ""
    requires Concat(source) == Concat(rendered) && Bound(rendered, k) == Bound(source, number)
    ensures Try(source, number, rendered, k) == Some(Run(Bound(source, number), Bound(source, number + 1)))
  {
    var end := Bound(source, number + 1);
    StreamBlock(source, number);
    FollowerFollows(source, number);
    ConcatLength(rendered);
    if NextText(source, number) == "" {
      StreamEnds(rendered, |rendered|);
    } else {
      HeadStarts(Concat(rendered), NextText(source, number), end);
    }
  }

  /** A block of the source can be reached on a re-cut: it is empty, or the walk is inside a
      rendered block when it comes to it, or the next text of the rendition begins within the
      window of blocks that are searched. */
  predicate Reached(source: seq<string>, n: nat, rendered: seq<string>)
    requires n < |source|
  {
    var cursor := Bound(source, n);
    source[n] != "" && !Pinned(rendered, cursor) ==>
      var first := FirstFresh(rendered, cursor);
      FirstText(rendered, first) < Window(rendered, first)
  }

  lemma {:induction false} FreshInEmpty(source: seq<string>, number: nat, rendered: seq<string>, index: nat, limit: nat)
    requires number < |source| && limit <= |rendered|
    requires forall j :: index <= j < limit ==> rendered[j] == ""
    ensures Fresh(source, number, rendered, index, limit) == None
    decreases limit - index
  {
    if index < limit { FreshInEmpty(source, number, rendered, index + 1, limit); }
  }

  lemma FreshExactly(source: seq<string>, number: nat, rendered: seq<string>)
    requires number < |source| && source[number] != "" && Concat(source) == Concat(rendered)
    requires !Pinned(rendered, Bound(source, number))
    ensures var cursor := Bound(source, number);
            var first := FirstFresh(rendered, cursor);
            Fresh(source, number, rendered, first, Window(rendered, first)) ==
            if Reached(source, number, rendered) then Some(Run(cursor, Bound(source, number + 1))) else None
  {
    var cursor := Bound(source, number);
    StreamBlock(source, number);
    FirstAtBoundary(rendered, cursor);
    var first := FirstFresh(rendered, cursor);
    var k, limit := FirstText(rendered, first), Window(rendered, first);
    if k < limit {
      FreshSkipsEmpty(source, number, rendered, first, k, limit);
      TakenWhole(source, number, rendered, k);
    } else {
      FreshInEmpty(source, number, rendered, first, limit);
    }
  }

  /** On a re-cut, a block starting at the cursor is found there exactly when it can be
      reached. */
  lemma MatchOnRecut(source: seq<string>, number: nat, rendered: seq<string>)
    requires number < |source| && Concat(source) == Concat(rendered)
    ensures OwnPosition(Match(source, number, rendered, Bound(source, number)), source, number)
       <==> Reached(source, number, rendered)
  {
    if source[number] != "" {
      StreamBlock(source, number);
      if !Pinned(rendered, Bound(source, number)) { FreshExactly(source, number, rendered); }
    }
  }

  lemma HeadStarts(s: string, part: string, at: nat)
    requires StartsWith(s, part, at)
    ensures StartsWith(s, Head(part, MIN_PREFIX_CHARACTERS), at)
  {
    var head := Head(part, MIN_PREFIX_CHARACTERS);
    assert s[at..at + |head|] == s[at..at + |part|][..|head|];
  }

  /** Each source block from `number` on that holds text is located at its own position. */
  ghost predicate InPlace(runs: seq<Option<Run>>, source: seq<string>, number: nat) {
    && number + |runs| == |source|
    && forall k :: 0 <= k < |runs| ==> OwnPosition(runs[k], source, number + k)
  }

  ghost predicate OwnPosition(run: Option<Run>, source: seq<string>, n: nat)
    requires n < |source|
  {
    run == if source[n] == "" then None else Some(Run(Bound(source, n), Bound(source, n + 1)))
  }

  /** A block located at its own position leaves the walk at the next block's. */
  lemma RunsCons(source: seq<string>, number: nat, rendered: seq<string>)
    requires number < |source|
    requires OwnPosition(Match(source, number, rendered, Bound(source, number)), source, number)
    ensures Runs(source, number, rendered, Bound(source, number))
         == [Match(source, number, rendered, Bound(source, number))]
            + Runs(source, number + 1, rendered, Bound(source, number + 1))
  {
    assert source[number] == "" ==> Bound(source, number + 1) == Bound(source, number);
  }

  lemma FirstMisplaced(source: seq<string>, number: nat, rendered: seq<string>, cursor: nat)
    requires number < |source| && !OwnPosition(Match(source, number, rendered, cursor), source, number)
    ensures !InPlace(Runs(source, number, rendered, cursor), source, number)
  {
    var runs := Runs(source, number, rendered, cursor);
    assert runs[0] == Match(source, number, rendered, cursor);
    assert !OwnPosition(runs[0], source, number + 0);
  }

  /** Every block from `number` on can be reached. */
  predicate AllReached(source: seq<string>, number: nat, rendered: seq<string>)
    requires number <= |source|
  {
    forall n :: number <= n < |source| ==> Reached(source, n, rendered)
  }

  lemma AllReachedCons(source: seq<string>, number: nat, rendered: seq<string>)
    requires number < |source|
    ensures AllReached(source, number, rendered)
       <==> Reached(source, number, rendered) && AllReached(source, number + 1, rendered)
  {
  }

  lemma OneOnRecut(source: seq<string>, number: nat, rendered: seq<string>)
    requires number < |source| && Concat(source) == Concat(rendered)
    ensures InPlace(Runs(source, number, rendered, Bound(source, number)), source, number)
       <==> && Reached(source, number, rendered)
            && InPlace(Runs(source, number + 1, rendered, Bound(source, number + 1)), source, number + 1)
  {
    var run := Match(source, number, rendered, Bound(source, number));
    MatchOnRecut(source, number, rendered);
    if OwnPosition(run, source, number) {
      RunsCons(source, number, rendered);
      InPlaceCons(run, Runs(source, number + 1, rendered, Bound(source, number + 1)), source, number);
    } else {
      FirstMisplaced(source, number, rendered, Bound(source, number));
    }
  }

  lemma {:induction false} RunsOnRecut(source: seq<string>, number: nat, rendered: seq<string>)
    requires number <= |source| && Concat(source) == Concat(rendered)
    ensures InPlace(Runs(source, number, rendered, Bound(source, number)), source, number)
       <==> AllReached(source, number, rendered)
    decreases |source| - number
  {
    if number < |source| {
      OneOnRecut(source, number, rendered);
      RunsOnRecut(source, number + 1, rendered);
      AllReachedCons(source, number, rendered);
    }
  }

  lemma InPlaceCons(run: Option<Run>, rest: seq<Option<Run>>, source: seq<string>, number: nat)
    requires number < |source| && OwnPosition(run, source, number)
    ensures InPlace([run] + rest, source, number) <==> InPlace(rest, source, number + 1)
  {
    var runs := [run] + rest;
    if InPlace(rest, source, number + 1) {
      forall k | 0 <= k < |runs| ensures OwnPosition(runs[k], source, number + k) {
        if k > 0 { assert OwnPosition(rest[k - 1], source, number + 1 + (k - 1)); }
      }
    }
    if InPlace(runs, source, number) {
      forall k | 0 <= k < |rest| ensures OwnPosition(rest[k], source, number + 1 + k) {
        assert OwnPosition(runs[k + 1], source, number + (k + 1));
      }
    }
  }

  /** When the rendition is the same text cut at other places, every source block that holds
      text is located at its own position if and only if every one can be reached. */
  lemma RecutExactly(source: seq<string>, rendered: seq<string>)
    requires Concat(source) == Concat(rendered)
    ensures InPlace(Runs(source, 0, rendered, 0), source, 0) <==> AllReached(source, 0, rendered)
  {
    RunsOnRecut(source, 0, rendered);
  }

  /** In particular when the rendition never has four hundred empty blocks in a row. */
  lemma RecutComplete(source: seq<string>, rendered: seq<string>)
    requires Concat(source) == Concat(rendered) && NoLongGap(rendered)
    ensures InPlace(Runs(source, 0, rendered, 0), source, 0)
  {
    forall n | 0 <= n < |source| ensures Reached(source, n, rendered) {
      var cursor := Bound(source, n);
      if source[n] != "" && !Pinned(rendered, cursor) {
        StreamBlock(source, n);
        var k := BlockAtBoundary(rendered, cursor);
      }
    }
    RecutExactly(source, rendered);
  }

  function Empties(n: nat): (blocks: seq<string>)
    ensures |blocks| == n && forall i :: 0 <= i < n ==> blocks[i] == ""
  {
    seq(n, i => "")
  }

  lemma {:induction false} ConcatEmpties(n: nat, blocks: seq<string>)
    ensures Concat(Empties(n) + blocks) == Concat(blocks)
  {
    if n == 0 {
      assert Empties(0) + blocks == blocks;
    } else {
      ConcatEmpties(n - 1, blocks);
      assert (Empties(n) + blocks)[1..] == Empties(n - 1) + blocks;
    }
  }

  /** One block rendered behind a gap as wide as the window is not found at all. */
  lemma GapLosesBlock(text: string, gap: nat)
    requires text != "" && gap >= MATCH_WINDOW_BLOCKS
    ensures var source, rendered := [text], Empties(gap) + [text];
            && Concat(source) == Concat(rendered)
            && Runs(source, 0, rendered, 0) == [None]
  {
    var source, rendered := [text], Empties(gap) + [text];
    ConcatEmpties(gap, [text]);
    assert Window(rendered, 0) == MATCH_WINDOW_BLOCKS;
    FreshInEmpty(source, 0, rendered, 0, MATCH_WINDOW_BLOCKS);
    assert Runs(source, 1, rendered, 0) == [];
  }
}
