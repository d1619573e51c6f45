// Alignment past what the source never held: running heads, page numbers and other furniture
// between the blocks of a re-cut, and the fragment a page break leaves.
module Furniture {
  import opened Text
  import opened Alignment

  // ----- the search ------------------------------------------------------------------------------

  /** The search answers with the first block start that offers a run. */
  lemma {:induction false} FreshFirst(source: seq<string>, number: nat, rendered: seq<string>, index: nat, j: nat, limit: nat)
    requires number < |source| && index <= j < limit <= |rendered|
    requires forall i: nat :: index <= i < j ==> Try(source, number, rendered, i) == None
    requires Try(source, number, rendered, j).Some?
    ensures Fresh(source, number, rendered, index, limit) == Try(source, number, rendered, j)
    decreases j - index
  {
    if index < j { FreshFirst(source, number, rendered, index + 1, j, limit); }
  }

  /** A block that is not the text's: it is empty, or neither of the two begins with the
      other. */
  predicate Foreign(block: string, text: string) {
    block == "" || (!(block <= text) && !(text <= block))
  }

  /** Of two strings that stand at one place, one begins with the other. */
  lemma {:induction false} BothStand(stream: string, a: string, b: string, at: nat)
    requires StartsWith(stream, a, at) && StartsWith(stream, b, at)
    ensures a <= b || b <= a
  {
    if |a| <= |b| {
      assert stream[at..at + |b|][..|a|] == stream[at..at + |a|];
    } else {
      assert stream[at..at + |a|][..|b|] == stream[at..at + |b|];
    }
  }

  lemma {:induction false} StartsAtOnce(s: string, part: string)
    requires StartsWith(s, part, 0)
    ensures part <= s
  {
    assert s[0..|part|] == s[..|part|];
  }

  /** The text does not stand at a foreign block, nor does a part of it. */
  lemma {:induction false} ForeignOffersNothing(source: seq<string>, number: nat, rendered: seq<string>, index: nat)
    requires number < |source| && index < |rendered| && Foreign(rendered[index], source[number])
    ensures Try(source, number, rendered, index) == None
  {
    var text, block, start := source[number], rendered[index], Bound(rendered, index);
    if block != "" {
      StreamBlock(rendered, index);
      if StartsWith(Concat(rendered), text, start) { BothStand(Concat(rendered), text, block, start); }
      if StartsWith(text, block, 0) { StartsAtOnce(text, block); }
    }
  }

  /** Where a match is looked for when the walk is inside no block. */
  ghost predicate Searched(source: seq<string>, number: nat, rendered: seq<string>, cursor: nat, j: nat)
    requires number < |source|
  {
    var first := FirstFresh(rendered, cursor);
    && !Pinned(rendered, cursor) && first <= j < Window(rendered, first)
    && forall i: nat :: first <= i < j ==> Foreign(rendered[i], source[number])
  }

  lemma {:induction false} MatchSearches(source: seq<string>, number: nat, rendered: seq<string>, cursor: nat, first: nat)
    requires number < |source| && source[number] != "" && !Pinned(rendered, cursor) && first == FirstFresh(rendered, cursor)
    ensures Match(source, number, rendered, cursor) == Fresh(source, number, rendered, first, Window(rendered, first))
  {
  }

  /** The search passes every foreign block before one that offers a run. */
  lemma {:induction false} SearchPasses(source: seq<string>, number: nat, rendered: seq<string>, cursor: nat, j: nat, run: Run)
    requires number < |source| && source[number] != "" && Searched(source, number, rendered, cursor, j)
    requires Try(source, number, rendered, j) == Some(run)
    ensures Match(source, number, rendered, cursor) == Some(run)
  {
    var first := FirstFresh(rendered, cursor);
    forall i: nat | first <= i < j ensures Try(source, number, rendered, i) == None {
      ForeignOffersNothing(source, number, rendered, i);
    }
    FreshFirst(source, number, rendered, first, j, Window(rendered, first));
    MatchSearches(source, number, rendered, cursor, first);
  }

  lemma {:induction false} TakenAt(source: seq<string>, number: nat, rendered: seq<string>, j: nat)
    requires number < |source| && j < |rendered| && rendered[j] != ""
    requires StartsWith(Concat(rendered), source[number], Bound(rendered, j))
    requires Accepted(source, number, rendered, Bound(rendered, j) + |source[number]|)
    ensures Try(source, number, rendered, j) == Some(Run(Bound(rendered, j), Bound(rendered, j) + |source[number]|))
  {
  }

  /** Past foreign blocks, a text that stands at a block start within the window is located
      there, if it is long, ends a block, or is followed by what comes next. */
  lemma {:induction false} FoundPastFurniture(source: seq<string>, number: nat, rendered: seq<string>, cursor: nat, j: nat)
    requires number < |source| && source[number] != "" && Searched(source, number, rendered, cursor, j)
    requires var start := Bound(rendered, j);
             && rendered[j] != "" && StartsWith(Concat(rendered), source[number], start)
             && Accepted(source, number, rendered, start + |source[number]|)
    ensures Match(source, number, rendered, cursor) == Some(Run(Bound(rendered, j), Bound(rendered, j) + |source[number]|))
  {
    TakenAt(source, number, rendered, j);
    SearchPasses(source, number, rendered, cursor, j, Run(Bound(rendered, j), Bound(rendered, j) + |source[number]|));
  }

  // ----- a fragment ----------------------------------------------------------------------------------

  lemma {:induction false} PrefixStands(text: string, head: string, block: string, rest: string)
    requires head + block + rest <= text
    ensures StartsWith(text, block, |head|)
  {
    assert text[..|head + block + rest|] == head + block + rest;
    assert text[|head|..|head| + |block|] == (head + block + rest)[|head|..|head| + |block|];
  }

  /** The next of the blocks that make up a part of the text. */
  lemma {:induction false} WholeOne(text: string, rendered: seq<string>, i: nat, p: nat, k: nat)
    requires i <= p < k <= |rendered| && Concat(rendered[i..k]) <= text
    ensures StartsWith(text, rendered[p], |Concat(rendered[i..p])|)
    ensures |Concat(rendered[i..p + 1])| == |Concat(rendered[i..p])| + |rendered[p]|
  {
    assert rendered[i..p + 1] == rendered[i..p] + [rendered[p]];
    ConcatAppend(rendered[i..p], [rendered[p]]);
    ConcatCons(rendered[p], []);
    assert rendered[i..k] == rendered[i..p + 1] + rendered[p + 1..k];
    ConcatAppend(rendered[i..p + 1], rendered[p + 1..k]);
    PrefixStands(text, Concat(rendered[i..p]), rendered[p], Concat(rendered[p + 1..k]));
  }

  /** Blocks the text goes on with, up to one it does not. */
  lemma {:induction false} WholeTo(text: string, rendered: seq<string>, i: nat, p: nat, k: nat)
    requires i <= p <= k <= |rendered| && Concat(rendered[i..k]) <= text
    requires k < |rendered| ==> !StartsWith(text, rendered[k], |Concat(rendered[i..k])|)
    ensures WholeBlocks(text, rendered, p, |Concat(rendered[i..p])|) == |Concat(rendered[i..k])|
    decreases k - p
  {
    if p < k {
      WholeOne(text, rendered, i, p, k);
      WholeTo(text, rendered, i, p + 1, k);
    }
  }

  lemma {:induction false} FragmentAt(source: seq<string>, number: nat, rendered: seq<string>, j: nat, k: nat)
    requires number < |source| && j < k <= |rendered| && rendered[j] != ""
    requires !StartsWith(Concat(rendered), source[number], Bound(rendered, j))
    requires Concat(rendered[j..k]) <= source[number] && |Concat(rendered[j..k])| >= MIN_PREFIX_CHARACTERS
    requires k < |rendered| ==> !StartsWith(source[number], rendered[k], |Concat(rendered[j..k])|)
    ensures Try(source, number, rendered, j) == Some(Run(Bound(rendered, j), Bound(rendered, k)))
  {
    assert rendered[j..j] == [];
    WholeTo(source[number], rendered, j, j, k);
    StreamBetween(rendered, j, k);
  }

  /** A text that goes on in no block after some whole ones is located by those, when they are
      sixteen characters or more. */
  lemma {:induction false} FragmentFound(source: seq<string>, number: nat, rendered: seq<string>, cursor: nat, j: nat, k: nat)
    requires number < |source| && source[number] != "" && Searched(source, number, rendered, cursor, j)
    requires j < k <= |rendered| && rendered[j] != "" && !StartsWith(Concat(rendered), source[number], Bound(rendered, j))
    requires Concat(rendered[j..k]) <= source[number] && |Concat(rendered[j..k])| >= MIN_PREFIX_CHARACTERS
    requires k < |rendered| ==> !StartsWith(source[number], rendered[k], |Concat(rendered[j..k])|)
    ensures Match(source, number, rendered, cursor) == Some(Run(Bound(rendered, j), Bound(rendered, k)))
  {
    FragmentAt(source, number, rendered, j, k);
    SearchPasses(source, number, rendered, cursor, j, Run(Bound(rendered, j), Bound(rendered, k)));
  }

  lemma {:induction false} ThreeBlocks(first: string, foot: string, rest: string)
    ensures Concat([first, foot, rest]) == first + foot + rest && Concat([first]) == first
    ensures Bound([first, foot, rest], 0) == 0 && Bound([first, foot, rest], 1) == |first|
  {
    var rendered := [first, foot, rest];
    assert rendered[1..] == [foot, rest] && [foot, rest][1..] == [rest];
    ConcatCons(first, []);
    ConcatCons(rest, []);
  }

  /** What stands after the same beginning stands alike without it. */
  lemma {:induction false} AfterSame(first: string, rest: string, other: string)
    ensures StartsWith(first + other, first + rest, 0) ==> rest <= other
    ensures StartsWith(first + rest, other, |first|) ==> other <= rest
  {
    if StartsWith(first + other, first + rest, 0) {
      StartsAtOnce(first + other, first + rest);
      assert (first + other)[|first|..] == other && (first + rest)[|first|..] == rest;
    }
    if StartsWith(first + rest, other, |first|) {
      assert (first + rest)[|first|..|first| + |other|] == rest[..|other|];
    }
  }

  /** A paragraph a page break interrupts with a running foot is located by its first part. */
  lemma {:induction false} PageBreakFragment(first: string, foot: string, rest: string)
    requires |first| >= MIN_PREFIX_CHARACTERS && rest != "" && !(foot <= rest) && !(rest <= foot + rest)
    ensures Runs([first + rest], 0, [first, foot, rest], 0) == [Some(Run(0, |first|))]
  {
    var text, source, rendered := first + rest, [first + rest], [first, foot, rest];
    ThreeBlocks(first, foot, rest);
    assert rendered[0..1] == [first];
    Associate(first, foot, rest);
    AfterSame(first, rest, foot + rest);
    AfterSame(first, rest, foot);
    FragmentFound(source, 0, rendered, 0, 0, 1);
    assert Runs(source, 1, rendered, |first|) == [];
  }

  // ----- a re-cut with furniture ----------------------------------------------------------------------

  /** Some furniture, and then consecutive texts of the source cut into other blocks. */
  datatype Segment = Segment(furniture: seq<string>, texts: seq<string>, blocks: seq<string>)

  predicate AllFilled(blocks: seq<string>) {
    forall i :: 0 <= i < |blocks| ==> blocks[i] != ""
  }

  ghost predicate WellCut(seg: Segment) {
    && seg.texts != [] && seg.texts[0] != "" && seg.blocks != [] && AllFilled(seg.blocks)
    && Concat(seg.texts) == Concat(seg.blocks)
    && |seg.furniture| < MATCH_WINDOW_BLOCKS
    && forall i :: 0 <= i < |seg.furniture| ==> Foreign(seg.furniture[i], seg.texts[0])
  }

  /** The segment stands in both streams: its texts from `so`, its furniture from `ro`, and
      nothing empty just before. */
  ghost predicate Stands(source: seq<string>, rendered: seq<string>, seg: Segment, so: nat, ro: nat) {
    && so + |seg.texts| <= |source| && source[so..so + |seg.texts|] == seg.texts
    && Blocks(seg, ro) + |seg.blocks| <= |rendered|
    && rendered[ro..Blocks(seg, ro)] == seg.furniture
    && rendered[Blocks(seg, ro)..Blocks(seg, ro) + |seg.blocks|] == seg.blocks
    && (ro == 0 || rendered[ro - 1] != "")
  }

  /** Where the segment's own blocks begin. */
  function Blocks(seg: Segment, ro: nat): nat {
    ro + |seg.furniture|
  }

  lemma {:induction false} BoundShift(rendered: seq<string>, from: nat, blocks: seq<string>, q: nat)
    requires from + |blocks| <= |rendered| && rendered[from..from + |blocks|] == blocks && q <= |blocks|
    ensures Bound(rendered, from + q) == Bound(rendered, from) + Bound(blocks, q)
  {
    if q > 0 {
      BoundShift(rendered, from, blocks, q - 1);
      assert rendered[from..from + |blocks|][q - 1] == rendered[from + (q - 1)];
    }
  }

  lemma {:induction false} SliceStands(s: string, a: nat, b: nat, part: string, at: nat)
    requires a <= b <= |s| && StartsWith(s[a..b], part, at)
    ensures StartsWith(s, part, a + at)
  {
    var t, n := s[a..b], |part|;
    forall k | 0 <= k < n ensures s[a + at..a + at + n][k] == part[k] {
      assert t[at..at + n][k] == t[at + k] == s[a + at + k];
    }
  }

  /** What stands in the segment's part of the stream stands in the stream. */
  lemma {:induction false} StreamShift(rendered: seq<string>, from: nat, blocks: seq<string>, part: string, at: nat)
    requires from + |blocks| <= |rendered| && rendered[from..from + |blocks|] == blocks
    requires StartsWith(Concat(blocks), part, at)
    ensures StartsWith(Concat(rendered), part, Bound(rendered, from) + at)
  {
    var to := from + |blocks|;
    StreamBetween(rendered, from, to);
    var base := Bound(rendered, from);
    SliceStands(Concat(rendered), base, Bound(rendered, to), part, at);
  }

  lemma {:induction false} BoundGrows(blocks: seq<string>, i: nat, j: nat)
    requires i < j <= |blocks| && AllFilled(blocks)
    ensures Bound(blocks, i) < Bound(blocks, j)
  {
    BoundsAscend(blocks, i + 1, j);
  }

  /** Text k of the segment stands where it is due. */
  lemma {:induction false} TextStands(source: seq<string>, rendered: seq<string>, seg: Segment, so: nat, ro: nat, k: nat)
    requires Stands(source, rendered, seg, so, ro) && WellCut(seg) && k < |seg.texts|
    ensures source[so + k] == seg.texts[k]
    ensures StartsWith(Concat(rendered), seg.texts[k], Bound(rendered, Blocks(seg, ro)) + Bound(seg.texts, k))
  {
    assert source[so..so + |seg.texts|][k] == source[so + k];
    StreamBlock(seg.texts, k);
    StreamShift(rendered, Blocks(seg, ro), seg.blocks, seg.texts[k], Bound(seg.texts, k));
  }

  /** The next text of the source is the segment's next, if it has one. */
  lemma {:induction false} NextInSegment(source: seq<string>, seg: Segment, so: nat, k: nat)
    requires so + |seg.texts| <= |source| && source[so..so + |seg.texts|] == seg.texts && k < |seg.texts|
    requires NextText(seg.texts, k) != ""
    ensures NextText(source, so + k) == NextText(seg.texts, k)
    decreases |seg.texts| - k
  {
    assert k + 1 < |seg.texts| ==> source[so..so + |seg.texts|][k + 1] == source[so + (k + 1)];
    if k + 1 < |seg.texts| && seg.texts[k + 1] == "" { NextInSegment(source, seg, so, k + 1); }
  }

  /** The last text of a segment ends its last block. */
  lemma {:induction false} LastEnds(rendered: seq<string>, from: nat, blocks: seq<string>)
    requires from + |blocks| <= |rendered| && rendered[from..from + |blocks|] == blocks && blocks != [] && AllFilled(blocks)
    ensures IsEnd(rendered, Bound(rendered, from) + |Concat(blocks)|)
  {
    var last := |blocks| - 1;
    ConcatLength(blocks);
    BoundShift(rendered, from, blocks, last);
    assert rendered[from..from + |blocks|][last] == rendered[from + last];
    EndsIsEnd(rendered, Bound(rendered, from) + |Concat(blocks)|, 0, from + last);
  }

  /** A text that is not the last is followed by the next. */
  lemma {:induction false} NextFollows(source: seq<string>, rendered: seq<string>, seg: Segment, so: nat, ro: nat, k: nat)
    requires Stands(source, rendered, seg, so, ro) && WellCut(seg) && k < |seg.texts| && NextText(seg.texts, k) != ""
    ensures NextText(source, so + k) == NextText(seg.texts, k)
    ensures StartsWith(Concat(rendered), Head(NextText(seg.texts, k), MIN_PREFIX_CHARACTERS),
                       Bound(rendered, Blocks(seg, ro)) + Bound(seg.texts, k + 1))
  {
    FollowerFollows(seg.texts, k);
    NextInSegment(source, seg, so, k);
    StreamShift(rendered, Blocks(seg, ro), seg.blocks, NextText(seg.texts, k), Bound(seg.texts, k + 1));
    HeadStarts(Concat(rendered), NextText(seg.texts, k), Bound(rendered, Blocks(seg, ro)) + Bound(seg.texts, k + 1));
  }

  /** A text of the segment is followed by what comes next, or ends a block. */
  lemma {:induction false} TextAccepted(source: seq<string>, rendered: seq<string>, seg: Segment, so: nat, ro: nat, k: nat)
    requires Stands(source, rendered, seg, so, ro) && WellCut(seg) && k < |seg.texts|
    ensures Accepted(source, so + k, rendered, Bound(rendered, Blocks(seg, ro)) + Bound(seg.texts, k + 1))
  {
    if NextText(seg.texts, k) == "" {
      FollowerFollows(seg.texts, k);
      LastEnds(rendered, Blocks(seg, ro), seg.blocks);
    } else {
      NextFollows(source, rendered, seg, so, ro, k);
    }
  }

  /** The first block at or past a position, when a block that is not empty begins there and
      the one before it ends before. */
  lemma {:induction false} FirstIs(rendered: seq<string>, cursor: nat, k: nat)
    requires k < |rendered| && Bound(rendered, k) == cursor && (k == 0 || Bound(rendered, k - 1) < cursor)
    ensures FirstFresh(rendered, cursor) == k
  {
    var first := FirstFresh(rendered, cursor);
    FirstFromIs(rendered, cursor, 0);
    if first < k { BoundsAscend(rendered, first, k - 1); }
  }

  /** The run a text of the segment is due. */
  function Due(rendered: seq<string>, seg: Segment, ro: nat, k: nat): Option<Run>
    requires k < |seg.texts| && Blocks(seg, ro) <= |rendered|
  {
    var base := Bound(rendered, Blocks(seg, ro));
    if seg.texts[k] == "" then None else Some(Run(base + Bound(seg.texts, k), base + Bound(seg.texts, k + 1)))
  }

  /** Between two segments the walk is inside no block. */
  lemma {:induction false} NotPinnedBefore(rendered: seq<string>, ro: nat, j: nat)
    requires ro <= j < |rendered| && rendered[j] != ""
    ensures !Pinned(rendered, Bound(rendered, ro))
  {
    var k := FirstText(rendered, ro);
    assert k <= j;
    BeginsIsStart(rendered, Bound(rendered, ro), 0, k);
  }

  lemma {:induction false} FurnitureSearched(source: seq<string>, rendered: seq<string>, seg: Segment, so: nat, ro: nat)
    requires Stands(source, rendered, seg, so, ro) && WellCut(seg) && source[so] == seg.texts[0]
    ensures rendered[Blocks(seg, ro)] != "" && Searched(source, so, rendered, Bound(rendered, ro), Blocks(seg, ro))
  {
    var j := Blocks(seg, ro);
    assert rendered[j..j + |seg.blocks|][0] == rendered[j];
    NotPinnedBefore(rendered, ro, j);
    FirstIs(rendered, Bound(rendered, ro), ro);
    forall i: nat | ro <= i < j ensures Foreign(rendered[i], source[so]) {
      assert rendered[ro..j][i - ro] == rendered[i];
    }
  }

  lemma {:induction false} BoundNext(blocks: seq<string>, k: nat)
    requires k < |blocks|
    ensures Bound(blocks, k + 1) == Bound(blocks, k) + |blocks[k]| && Bound(blocks, 0) == 0
  {
  }

  lemma {:induction false} DueIs(rendered: seq<string>, seg: Segment, ro: nat, k: nat)
    requires k < |seg.texts| && Blocks(seg, ro) <= |rendered| && seg.texts[k] != ""
    ensures var at := Bound(rendered, Blocks(seg, ro)) + Bound(seg.texts, k);
            Due(rendered, seg, ro, k) == Some(Run(at, at + |seg.texts[k]|))
  {
    BoundNext(seg.texts, k);
  }

  /** Text k stands, accepted, at the start of this block. */
  ghost predicate Ready(source: seq<string>, number: nat, rendered: seq<string>, j: nat, seg: Segment, ro: nat, k: nat) {
    && number < |source| && k < |seg.texts| && source[number] == seg.texts[k] != "" && Blocks(seg, ro) <= |rendered|
    && j < |rendered| && rendered[j] != ""
    && Bound(rendered, j) == Bound(rendered, Blocks(seg, ro)) + Bound(seg.texts, k)
    && StartsWith(Concat(rendered), source[number], Bound(rendered, j))
    && Accepted(source, number, rendered, Bound(rendered, j) + |source[number]|)
  }

  lemma {:induction false} TextReady(source: seq<string>, rendered: seq<string>, seg: Segment, so: nat, ro: nat, k: nat, j: nat)
    requires Stands(source, rendered, seg, so, ro) && WellCut(seg) && k < |seg.texts| && seg.texts[k] != ""
    requires j < |rendered| && rendered[j] != "" && Bound(rendered, j) == Bound(rendered, Blocks(seg, ro)) + Bound(seg.texts, k)
    ensures Ready(source, so + k, rendered, j, seg, ro, k)
  {
    TextStands(source, rendered, seg, so, ro, k);
    TextAccepted(source, rendered, seg, so, ro, k);
    BoundNext(seg.texts, k);
  }

  lemma {:induction false} ReadyIsDue(source: seq<string>, number: nat, rendered: seq<string>, cursor: nat, j: nat, seg: Segment, ro: nat, k: nat)
    requires Ready(source, number, rendered, j, seg, ro, k) && Searched(source, number, rendered, cursor, j)
    ensures Match(source, number, rendered, cursor) == Due(rendered, seg, ro, k)
  {
    DueIs(rendered, seg, ro, k);
    FoundPastFurniture(source, number, rendered, cursor, j);
  }

  /** The walk comes to the segment at the start of its furniture, and passes it. */
  lemma {:induction false} FirstDue(source: seq<string>, rendered: seq<string>, seg: Segment, so: nat, ro: nat)
    requires Stands(source, rendered, seg, so, ro) && WellCut(seg)
    ensures Match(source, so, rendered, Bound(rendered, ro)) == Due(rendered, seg, ro, 0)
  {
    var j := Blocks(seg, ro);
    TextStands(source, rendered, seg, so, ro, 0);
    FurnitureSearched(source, rendered, seg, so, ro);
    BoundNext(seg.texts, 0);
    TextReady(source, rendered, seg, so, ro, 0, j);
    ReadyIsDue(source, so, rendered, Bound(rendered, ro), j, seg, ro, 0);
  }

  /** A block that begins inside a part of the rendition is one of that part. */
  lemma {:induction false} StartInside(rendered: seq<string>, from: nat, to: nat, j: nat)
    requires from <= to <= |rendered| && j < |rendered|
    requires Bound(rendered, from) < Bound(rendered, j) < Bound(rendered, to)
    ensures from < j < to
  {
    if j <= from { BoundsAscend(rendered, j, from); } else if j >= to { BoundsAscend(rendered, to, j); }
  }

  /** At a block start inside the segment the search begins with that block. */
  lemma {:induction false} BlockStartInside(rendered: seq<string>, from: nat, blocks: seq<string>, cursor: nat)
    requires from + |blocks| <= |rendered| && rendered[from..from + |blocks|] == blocks && AllFilled(blocks)
    requires Bound(rendered, from) < cursor < Bound(rendered, from + |blocks|) && IsStart(rendered, cursor)
    ensures var j := FirstFresh(rendered, cursor);
            j < |rendered| && rendered[j] != "" && Bound(rendered, j) == cursor
  {
    var to := from + |blocks|;
    var j := StartIs(rendered, cursor, 0);
    StartInside(rendered, from, to, j);
    assert rendered[from..to][j - 1 - from] == rendered[j - 1];
    FirstIs(rendered, cursor, j);
  }

  /** The position of text k lies inside the segment's blocks. */
  lemma {:induction false} InsideBlocks(source: seq<string>, rendered: seq<string>, seg: Segment, so: nat, ro: nat, k: nat)
    requires Stands(source, rendered, seg, so, ro) && WellCut(seg) && 0 < k < |seg.texts| && seg.texts[k] != ""
    ensures var base := Bound(rendered, Blocks(seg, ro));
            base < base + Bound(seg.texts, k) < Bound(rendered, Blocks(seg, ro) + |seg.blocks|)
  {
    BoundShift(rendered, Blocks(seg, ro), seg.blocks, |seg.blocks|);
    ConcatLength(seg.blocks);
    ConcatLength(seg.texts);
    BoundsAscend(seg.texts, 1, k);
    BoundsAscend(seg.texts, k + 1, |seg.texts|);
  }

  /** Where the walk is inside a block, the text stands at the cursor. */
  lemma {:induction false} PinnedDue(source: seq<string>, rendered: seq<string>, seg: Segment, so: nat, ro: nat, k: nat, cursor: nat)
    requires Stands(source, rendered, seg, so, ro) && WellCut(seg) && k < |seg.texts| && seg.texts[k] != ""
    requires cursor == Bound(rendered, Blocks(seg, ro)) + Bound(seg.texts, k) && Pinned(rendered, cursor)
    ensures Match(source, so + k, rendered, cursor) == Due(rendered, seg, ro, k)
  {
    TextStands(source, rendered, seg, so, ro, k);
    DueIs(rendered, seg, ro, k);
  }

  /** Where it is at a block start, the search begins with that block. */
  lemma {:induction false} StartDue(source: seq<string>, rendered: seq<string>, seg: Segment, so: nat, ro: nat, k: nat, cursor: nat)
    requires Stands(source, rendered, seg, so, ro) && WellCut(seg) && 0 < k < |seg.texts| && seg.texts[k] != ""
    requires cursor == Bound(rendered, Blocks(seg, ro)) + Bound(seg.texts, k) && IsStart(rendered, cursor)
    ensures Match(source, so + k, rendered, cursor) == Due(rendered, seg, ro, k)
  {
    var j := FirstFresh(rendered, cursor);
    InsideBlocks(source, rendered, seg, so, ro, k);
    BlockStartInside(rendered, Blocks(seg, ro), seg.blocks, cursor);
    TextReady(source, rendered, seg, so, ro, k, j);
    ReadyIsDue(source, so + k, rendered, cursor, j, seg, ro, k);
  }

  lemma {:induction false} InsidePinned(rendered: seq<string>, cursor: nat, to: nat)
    requires to <= |rendered| && 0 < cursor < Bound(rendered, to) && !IsStart(rendered, cursor)
    ensures Pinned(rendered, cursor)
  {
    BoundsAscend(rendered, to, |rendered|);
    ConcatLength(rendered);
  }

  /** Inside the segment the walk stands where the next text begins. */
  lemma {:induction false} LaterDue(source: seq<string>, rendered: seq<string>, seg: Segment, so: nat, ro: nat, k: nat)
    requires Stands(source, rendered, seg, so, ro) && WellCut(seg) && 0 < k < |seg.texts|
    ensures Match(source, so + k, rendered, Bound(rendered, Blocks(seg, ro)) + Bound(seg.texts, k)) == Due(rendered, seg, ro, k)
  {
    if seg.texts[k] == "" {
      TextStands(source, rendered, seg, so, ro, k);
    } else {
      var cursor := Bound(rendered, Blocks(seg, ro)) + Bound(seg.texts, k);
      InsideBlocks(source, rendered, seg, so, ro, k);
      if IsStart(rendered, cursor) {
        StartDue(source, rendered, seg, so, ro, k, cursor);
      } else {
        InsidePinned(rendered, cursor, Blocks(seg, ro) + |seg.blocks|);
        PinnedDue(source, rendered, seg, so, ro, k, cursor);
      }
    }
  }

  function DueFrom(rendered: seq<string>, seg: Segment, ro: nat, k: nat): seq<Option<Run>>
    requires k <= |seg.texts| && Blocks(seg, ro) <= |rendered|
    decreases |seg.texts| - k
  {
    if k == |seg.texts| then [] else [Due(rendered, seg, ro, k)] + DueFrom(rendered, seg, ro, k + 1)
  }

  /** Where the walk stands when it comes to text k. */
  function CursorAt(rendered: seq<string>, seg: Segment, ro: nat, k: nat): nat
    requires k <= |seg.texts| && Blocks(seg, ro) <= |rendered|
  {
    if k == 0 then Bound(rendered, ro) else Bound(rendered, Blocks(seg, ro)) + Bound(seg.texts, k)
  }

  /** One text, and the walk is at the next. */
  lemma {:induction false} RunsStep(source: seq<string>, number: nat, rendered: seq<string>, cursor: nat, run: Option<Run>, next: nat)
    requires number < |source| && run == Match(source, number, rendered, cursor)
    requires next == if run.Some? then run.value.end else cursor
    ensures Runs(source, number, rendered, cursor) == [run] + Runs(source, number + 1, rendered, next)
  {
  }

  lemma {:induction false} CursorMoves(rendered: seq<string>, seg: Segment, ro: nat, k: nat)
    requires k < |seg.texts| && seg.texts[0] != "" && Blocks(seg, ro) <= |rendered|
    ensures var run := Due(rendered, seg, ro, k);
            CursorAt(rendered, seg, ro, k + 1) == if run.Some? then run.value.end else CursorAt(rendered, seg, ro, k)
  {
    BoundNext(seg.texts, k);
  }

  lemma {:induction false} MatchDue(source: seq<string>, rendered: seq<string>, seg: Segment, so: nat, ro: nat, k: nat)
    requires Stands(source, rendered, seg, so, ro) && WellCut(seg) && k < |seg.texts|
    ensures Match(source, so + k, rendered, CursorAt(rendered, seg, ro, k)) == Due(rendered, seg, ro, k)
  {
    if k == 0 { FirstDue(source, rendered, seg, so, ro); } else { LaterDue(source, rendered, seg, so, ro, k); }
  }

  lemma {:induction false} StepDue(source: seq<string>, number: nat, rendered: seq<string>, seg: Segment, ro: nat, k: nat)
    requires number < |source| && k < |seg.texts| && seg.texts[0] != "" && Blocks(seg, ro) <= |rendered|
    requires Match(source, number, rendered, CursorAt(rendered, seg, ro, k)) == Due(rendered, seg, ro, k)
    ensures Runs(source, number, rendered, CursorAt(rendered, seg, ro, k))
         == [Due(rendered, seg, ro, k)] + Runs(source, number + 1, rendered, CursorAt(rendered, seg, ro, k + 1))
  {
    CursorMoves(rendered, seg, ro, k);
    RunsStep(source, number, rendered, CursorAt(rendered, seg, ro, k), Due(rendered, seg, ro, k), CursorAt(rendered, seg, ro, k + 1));
  }

  lemma {:induction false} WalkOne(source: seq<string>, rendered: seq<string>, seg: Segment, so: nat, ro: nat, k: nat)
    requires Stands(source, rendered, seg, so, ro) && WellCut(seg) && k < |seg.texts|
    ensures Runs(source, so + k, rendered, CursorAt(rendered, seg, ro, k))
         == [Due(rendered, seg, ro, k)] + Runs(source, so + k + 1, rendered, CursorAt(rendered, seg, ro, k + 1))
  {
    MatchDue(source, rendered, seg, so, ro, k);
    StepDue(source, so + k, rendered, seg, ro, k);
  }

  lemma {:induction false} Glue<T>(whole: seq<T>, x: T, next: seq<T>, more: seq<T>, rest: seq<T>)
    requires whole == [x] + next && next == more + rest
    ensures whole == ([x] + more) + rest
  {
  }

  /** The walk takes the texts of the segment one by one, each where it is due, and stands at
      `end` after the last. */
  lemma {:induction false} SegmentWalked(source: seq<string>, rendered: seq<string>, seg: Segment, so: nat, ro: nat, k: nat, end: nat)
    requires Stands(source, rendered, seg, so, ro) && WellCut(seg) && k <= |seg.texts|
    requires end == CursorAt(rendered, seg, ro, |seg.texts|)
    ensures Runs(source, so + k, rendered, CursorAt(rendered, seg, ro, k))
         == DueFrom(rendered, seg, ro, k) + Runs(source, so + |seg.texts|, rendered, end)
    decreases |seg.texts| - k
  {
    if k < |seg.texts| {
      WalkOne(source, rendered, seg, so, ro, k);
      SegmentWalked(source, rendered, seg, so, ro, k + 1, end);
      Glue(Runs(source, so + k, rendered, CursorAt(rendered, seg, ro, k)), Due(rendered, seg, ro, k),
        Runs(source, so + k + 1, rendered, CursorAt(rendered, seg, ro, k + 1)), DueFrom(rendered, seg, ro, k + 1),
        Runs(source, so + |seg.texts|, rendered, end));
    } else {
      var rest := Runs(source, so + |seg.texts|, rendered, end);
      assert [] + rest == rest;
    }
  }

  // ----- whole renditions ---------------------------------------------------------------------------

  function AllTexts(segs: seq<Segment>): seq<string> {
    if segs == [] then [] else segs[0].texts + AllTexts(segs[1..])
  }

  function AllBlocks(segs: seq<Segment>): seq<string> {
    if segs == [] then [] else segs[0].furniture + segs[0].blocks + AllBlocks(segs[1..])
  }

  ghost predicate AllWellCut(segs: seq<Segment>) {
    forall i :: 0 <= i < |segs| ==> WellCut(segs[i])
  }

  function AllDue(rendered: seq<string>, segs: seq<Segment>, ro: nat): seq<Option<Run>>
    requires ro + |AllBlocks(segs)| <= |rendered|
    decreases |segs|
  {
    if segs == [] then []
    else DueFrom(rendered, segs[0], ro, 0) + AllDue(rendered, segs[1..], Blocks(segs[0], ro) + |segs[0].blocks|)
  }

  lemma {:induction false} ThreeSlices<T>(s: seq<T>, from: nat, a: seq<T>, b: seq<T>, c: seq<T>)
    requires from <= |s| && s[from..] == a + b + c
    ensures var m, n := from + |a|, from + |a| + |b|;
            n <= |s| && s[from..m] == a && s[m..n] == b && s[n..] == c
  {
    var t, m, n := s[from..], from + |a|, from + |a| + |b|;
    assert s[from..m] == t[..|a|] && s[m..n] == t[|a|..|a| + |b|] && s[n..] == t[|a| + |b|..];
  }

  lemma {:induction false} TextsSlices(source: seq<string>, segs: seq<Segment>, so: nat)
    requires segs != [] && so <= |source| && source[so..] == AllTexts(segs)
    ensures var next := so + |segs[0].texts|;
            next <= |source| && source[so..next] == segs[0].texts && source[next..] == AllTexts(segs[1..])
  {
    var rest := AllTexts(segs[1..]);
    assert [] + segs[0].texts + rest == segs[0].texts + rest;
    ThreeSlices(source, so, [], segs[0].texts, rest);
  }

  lemma {:induction false} BlocksSlices(rendered: seq<string>, segs: seq<Segment>, tail: seq<string>, ro: nat)
    requires segs != [] && ro <= |rendered| && rendered[ro..] == AllBlocks(segs) + tail
    ensures var from, to := Blocks(segs[0], ro), Blocks(segs[0], ro) + |segs[0].blocks|;
            && to <= |rendered| && rendered[ro..from] == segs[0].furniture && rendered[from..to] == segs[0].blocks
            && rendered[to..] == AllBlocks(segs[1..]) + tail
  {
    var seg, rest := segs[0], AllBlocks(segs[1..]);
    Associate(seg.furniture + seg.blocks, rest, tail);
    ThreeSlices(rendered, ro, seg.furniture, seg.blocks, rest + tail);
  }

  /** The first segment stands in the streams, and the others after it. */
  lemma {:induction false} SegmentStands(source: seq<string>, rendered: seq<string>, segs: seq<Segment>, tail: seq<string>, so: nat, ro: nat)
    requires segs != [] && so <= |source| && ro <= |rendered|
    requires source[so..] == AllTexts(segs) && rendered[ro..] == AllBlocks(segs) + tail && (ro == 0 || rendered[ro - 1] != "")
    ensures Stands(source, rendered, segs[0], so, ro)
    ensures var so', ro' := so + |segs[0].texts|, Blocks(segs[0], ro) + |segs[0].blocks|;
            source[so'..] == AllTexts(segs[1..]) && rendered[ro'..] == AllBlocks(segs[1..]) + tail
  {
    TextsSlices(source, segs, so);
    BlocksSlices(rendered, segs, tail, ro);
  }

  /** Where the walk leaves a segment the next begins, after a block that is not empty. */
  lemma {:induction false} SegmentLeft(source: seq<string>, rendered: seq<string>, seg: Segment, so: nat, ro: nat)
    requires Stands(source, rendered, seg, so, ro) && WellCut(seg)
    ensures var to := Blocks(seg, ro) + |seg.blocks|;
            to > 0 && rendered[to - 1] != "" && CursorAt(rendered, seg, ro, |seg.texts|) == Bound(rendered, to)
  {
    var from, n := Blocks(seg, ro), |seg.blocks|;
    assert rendered[from..from + n][n - 1] == rendered[from + n - 1];
    BoundShift(rendered, from, seg.blocks, n);
    ConcatLength(seg.texts);
    ConcatLength(seg.blocks);
  }

  /** One segment's runs, and then the others'. */
  lemma {:induction false} WalkedOn(source: seq<string>, rendered: seq<string>, segs: seq<Segment>, so: nat, ro: nat, next: nat)
    requires segs != [] && so <= |source| && next <= |source| && ro + |AllBlocks(segs)| <= |rendered|
    requires var seg, to := segs[0], Blocks(segs[0], ro) + |segs[0].blocks|;
             && Runs(source, so, rendered, Bound(rendered, ro)) == DueFrom(rendered, seg, ro, 0) + Runs(source, next, rendered, Bound(rendered, to))
             && Runs(source, next, rendered, Bound(rendered, to)) == AllDue(rendered, segs[1..], to)
    ensures Runs(source, so, rendered, Bound(rendered, ro)) == AllDue(rendered, segs, ro)
  {
  }

  /** What is left of both streams from here on. */
  ghost predicate Left(source: seq<string>, rendered: seq<string>, segs: seq<Segment>, tail: seq<string>, so: nat, ro: nat) {
    && so <= |source| && ro <= |rendered|
    && source[so..] == AllTexts(segs) && rendered[ro..] == AllBlocks(segs) + tail && (ro == 0 || rendered[ro - 1] != "")
  }

  lemma {:induction false} OneSegment(source: seq<string>, rendered: seq<string>, segs: seq<Segment>, tail: seq<string>, so: nat, ro: nat, so': nat, ro': nat)
    requires segs != [] && WellCut(segs[0]) && Left(source, rendered, segs, tail, so, ro)
    requires so' == so + |segs[0].texts| && ro' == Blocks(segs[0], ro) + |segs[0].blocks|
    ensures Left(source, rendered, segs[1..], tail, so', ro') && Blocks(segs[0], ro) <= |rendered|
    ensures Runs(source, so, rendered, Bound(rendered, ro))
         == DueFrom(rendered, segs[0], ro, 0) + Runs(source, so', rendered, Bound(rendered, ro'))
  {
    SegmentStands(source, rendered, segs, tail, so, ro);
    SegmentLeft(source, rendered, segs[0], so, ro);
    SegmentWalked(source, rendered, segs[0], so, ro, 0, Bound(rendered, ro'));
  }

  lemma {:induction false} SegmentsWalked(source: seq<string>, rendered: seq<string>, segs: seq<Segment>, tail: seq<string>, so: nat, ro: nat)
    requires AllWellCut(segs) && Left(source, rendered, segs, tail, so, ro)
    ensures ro + |AllBlocks(segs)| <= |rendered|
    ensures Runs(source, so, rendered, Bound(rendered, ro)) == AllDue(rendered, segs, ro)
    decreases |segs|
  {
    assert |rendered[ro..]| == |AllBlocks(segs)| + |tail|;
    if segs == [] {
      assert so == |source|;
    } else {
      var so', ro' := so + |segs[0].texts|, Blocks(segs[0], ro) + |segs[0].blocks|;
      assert WellCut(segs[0]);
      OneSegment(source, rendered, segs, tail, so, ro, so', ro');
      SegmentsWalked(source, rendered, segs[1..], tail, so', ro');
      WalkedOn(source, rendered, segs, so, ro, so');
    }
  }

  /** When the rendition is the source cut at other places, with furniture of fewer than four
      hundred blocks foreign to the text that follows it before any of its parts, and with
      anything at all after the last: every text is located at its own place in the
      rendition, and the empty ones nowhere. */
  lemma {:induction false} FurnitureIsPassed(segs: seq<Segment>, tail: seq<string>)
    requires AllWellCut(segs)
    ensures Runs(AllTexts(segs), 0, AllBlocks(segs) + tail, 0) == AllDue(AllBlocks(segs) + tail, segs, 0)
  {
    var source, rendered := AllTexts(segs), AllBlocks(segs) + tail;
    assert source[0..] == source && rendered[0..] == rendered;
    SegmentsWalked(source, rendered, segs, tail, 0, 0);
  }

  /** The running head of a report and its first sentence: the head is passed. */
  lemma {:induction false} RunningHeadPassed(head: string, text: string)
    requires head != "" && text != "" && Foreign(head, text)
    ensures Runs([text], 0, [head, text], 0) == [Some(Run(|head|, |head| + |text|))]
  {
    var seg := Segment([head], [text], [text]);
    var rendered := AllBlocks([seg]) + [];
    assert [seg][1..] == [] && AllTexts([]) == [] && AllBlocks([]) == [];
    assert AllTexts([seg]) == [text] + [] && AllBlocks([seg]) == [head] + [text] + [];
    assert rendered == [head, text];
    FurnitureIsPassed([seg], []);
    assert Bound(rendered, 1) == |head| && Bound([text], 1) == |text|;
    DueIs(rendered, seg, 0, 0);
    assert Bound([text], 0) == 0 && DueFrom(rendered, seg, 0, 1) == [];
    assert AllDue(rendered, [], 2) == [];
  }

  /** A short text that the block goes on after, and not with what comes next in the source,
      is not located there. */
  lemma {:induction false} ShortTextPassed(text: string, rest: string, next: string)
    requires text != "" && |text| < MIN_PREFIX_CHARACTERS && rest != "" && next != ""
    requires !StartsWith(text + rest, Head(next, MIN_PREFIX_CHARACTERS), |text|)
    ensures Match([text, next], 0, [text + rest], 0) == None
  {
    var source, rendered := [text, next], [text + rest];
    ConcatCons(text + rest, []);
    assert Bound(rendered, 0) == 0 && rendered[0] == text + rest && |rendered[0]| > |text|;
    assert !EndsAt(rendered, 0, |text|) && !EndFrom(rendered, |text|, 1);
    assert NextText(source, 0) == next;
    assert StartsWith(Concat(rendered), text, 0);
    assert Try(source, 0, rendered, 0) == None;
    assert Fresh(source, 0, rendered, 1, 1) == None;
  }
}
