// Turning a chunk's character range into the blocks it came from, and keeping a block map
// true when characters are deleted from the text under it.
module Anchors {
  import opened Text
  import Bisect

  /** A rectangle on a page, left, top, right, bottom. */
  datatype Box = Box(x0: real, y0: real, x1: real, y1: real)

  /** A measured block: a half-open range of the text and where it was set. */
  datatype Block = Block(start: nat, end: nat, page: int, box: Box)

  function Starts(blocks: seq<Block>): (starts: seq<int>)
    ensures |starts| == |blocks| && forall i :: 0 <= i < |blocks| ==> starts[i] == blocks[i].start
  {
    seq(|blocks|, i requires 0 <= i < |blocks| => blocks[i].start)
  }

  /** A block map as a reader emits one: in document order, no two blocks sharing text. */
  predicate InOrder(blocks: seq<Block>) {
    && (forall i :: 0 <= i < |blocks| ==> blocks[i].start <= blocks[i].end)
    && (forall i, j :: 0 <= i < j < |blocks| ==> blocks[i].end <= blocks[j].start)
  }

  // ----- which blocks a range touches -------------------------------------------------------

  predicate Touches(block: Block, start: int, end: int) {
    (if end < block.end then end else block.end) > (if start > block.start then start else block.start)
  }

  predicate InBoth(block: Block, p: nat, start: int, end: int) {
    block.start <= p < block.end && start <= p < end
  }

  /** A block is touched when it and the range share a character. */
  lemma TouchIsShared(block: Block, start: int, end: int)
    ensures Touches(block, start, end) <==> exists p :: InBoth(block, p, start, end)
  {
    if Touches(block, start, end) {
      var p: nat := if start > block.start then start else block.start;
      assert InBoth(block, p, start, end);
    }
  }

  /** What a scan of the whole map finds. */
  function Scan(blocks: seq<Block>, start: int, end: int): seq<Block> {
    if blocks == [] then []
    else if Touches(blocks[0], start, end) then [blocks[0]] + Scan(blocks[1..], start, end)
    else Scan(blocks[1..], start, end)
  }

  lemma {:induction false} ScanAppend(a: seq<Block>, b: seq<Block>, start: int, end: int)
    ensures Scan(a + b, start, end) == Scan(a, start, end) + Scan(b, start, end)
  {
    if a == [] {
      assert a + b == b;
    } else {
      ScanAppend(a[1..], b, start, end);
      assert (a + b)[1..] == a[1..] + b;
    }
  }

  lemma {:induction false} ScanOfNone(blocks: seq<Block>, start: int, end: int)
    requires forall i :: 0 <= i < |blocks| ==> !Touches(blocks[i], start, end)
    ensures Scan(blocks, start, end) == []
  {
    if blocks != [] { ScanOfNone(blocks[1..], start, end); }
  }

  /** A scan may leave out blocks at either end that the range does not touch. */
  lemma ScanWindow(blocks: seq<Block>, first: nat, last: nat, start: int, end: int)
    requires first <= last <= |blocks|
    requires forall i :: 0 <= i < first ==> !Touches(blocks[i], start, end)
    requires forall i :: last <= i < |blocks| ==> !Touches(blocks[i], start, end)
    ensures Scan(blocks, start, end) == Scan(blocks[first..last], start, end)
  {
    ScanOfNone(blocks[..first], start, end);
    ScanOfNone(blocks[last..], start, end);
    assert blocks == blocks[..first] + (blocks[first..last] + blocks[last..]);
    ScanAppend(blocks[..first], blocks[first..last] + blocks[last..], start, end);
    ScanAppend(blocks[first..last], blocks[last..], start, end);
  }

  /** Blocks before the one that may hold `start` end at or before it. */
  lemma EarlierMiss(blocks: seq<Block>, first: nat, start: int, end: int)
    requires InOrder(blocks) && (first == 0 || (first < |blocks| && blocks[first].start <= start))
    ensures forall i :: 0 <= i < first ==> !Touches(blocks[i], start, end)
  {
  }

  lemma LaterMiss(blocks: seq<Block>, last: nat, start: int, end: int)
    requires InOrder(blocks) && last <= |blocks| && (last == |blocks| || blocks[last].start >= end)
    ensures forall i :: last <= i < |blocks| ==> !Touches(blocks[i], start, end)
  {
  }

  lemma ScanOne(blocks: seq<Block>, first: nat, index: nat, start: int, end: int)
    requires first <= index < |blocks|
    ensures var found := Scan(blocks[first..index], start, end);
            Scan(blocks[first..index + 1], start, end) ==
            if Touches(blocks[index], start, end) then found + [blocks[index]] else found
  {
    var block := blocks[index];
    assert blocks[first..index + 1] == blocks[first..index] + [block];
    ScanAppend(blocks[first..index], [block], start, end);
    assert [block][1..] == [];
  }

  /** The search from the block that may hold `start`, stopping at the first that begins
      past the range, finds exactly what a scan of the whole map would. */
  method OverlappingBlocks(blocks: seq<Block>, starts: seq<int>, start: int, end: int) returns (found: seq<Block>)
    requires InOrder(blocks) && starts == Starts(blocks)
    ensures found == Scan(blocks, start, end)
  {
    assert Bisect.Ascending(starts);
    var right := Bisect.Right(starts, start);
    var index: nat := if right > 0 then right - 1 else 0;
    ghost var first := index;
    EarlierMiss(blocks, first, start, end);
    found := [];
    while index < |blocks| && blocks[index].start < end
      invariant first <= index <= |blocks|
      invariant found == Scan(blocks[first..index], start, end)
    {
      var block := blocks[index];
      ScanOne(blocks, first, index, start, end);
      if Touches(block, start, end) {
        found := found + [block];
      }
      index := index + 1;
    }
    LaterMiss(blocks, index, start, end);
    ScanWindow(blocks, first, index, start, end);
  }

  // ----- deleting a character from under the map -----------------------------------------------

  /** text.replace(removed, "") */
  function Without(text: string, removed: char): string {
    if text == "" then ""
    else if text[0] == removed then Without(text[1..], removed)
    else [text[0]] + Without(text[1..], removed)
  }

  /** The positions of the removed character, as enumerate gives them from `at` on. */
  function Positions(text: string, removed: char, at: nat): (positions: seq<int>)
    requires at <= |text|
    ensures Bisect.Ascending(positions)
    ensures forall i :: 0 <= i < |positions| ==> at <= positions[i] < |text|
    decreases |text| - at
  {
    if at == |text| then []
    else
      var rest := Positions(text, removed, at + 1);
      if text[at] == removed then [at] + rest else rest
  }

  function Moved(offset: nat, positions: seq<int>): int
    requires Bisect.Ascending(positions)
  {
    offset - Bisect.Right(positions, offset - 1)
  }

  function ShiftForRemoved(text: string, blocks: seq<Block>, removed: char): (string, seq<Block>)
    requires forall i :: 0 <= i < |blocks| ==> blocks[i].start <= blocks[i].end <= |text|
  {
    if removed !in text then (text, blocks)
    else
      var positions := Positions(text, removed, 0);
      (Without(text, removed), ShiftAll(text, blocks, removed))
  }

  function ShiftAll(text: string, blocks: seq<Block>, removed: char): (moved: seq<Block>)
    requires forall i :: 0 <= i < |blocks| ==> blocks[i].start <= blocks[i].end <= |text|
    ensures |moved| == |blocks|
    ensures forall i :: 0 <= i < |blocks| ==>
      moved[i] == blocks[i].(start := |Without(text[..blocks[i].start], removed)|,
                             end := |Without(text[..blocks[i].end], removed)|)
  {
    var positions := Positions(text, removed, 0);
    if blocks == [] then []
    else
      MovedCounts(text, removed, blocks[0].start);
      MovedCounts(text, removed, blocks[0].end);
      [blocks[0].(start := Moved(blocks[0].start, positions), end := Moved(blocks[0].end, positions))]
      + ShiftAll(text, blocks[1..], removed)
  }

  /** Counting the removed characters before an offset by bisection leaves what a count of
      the characters kept before it gives. */
  lemma MovedCounts(text: string, removed: char, offset: nat)
    requires offset <= |text|
    ensures Moved(offset, Positions(text, removed, 0)) == |Without(text[..offset], removed)|
  {
    CountBelow(text, removed, 0, offset);
    RightIsCount(Positions(text, removed, 0), offset - 1);
    assert text[0..offset] == text[..offset];
  }

  function CountUpTo(positions: seq<int>, x: int): nat {
    if positions == [] then 0
    else (if positions[0] <= x then 1 else 0) + CountUpTo(positions[1..], x)
  }

  lemma {:induction false} RightIsCount(positions: seq<int>, x: int)
    requires Bisect.Ascending(positions)
    ensures Bisect.Right(positions, x) == CountUpTo(positions, x)
  {
    var r := Bisect.Right(positions, x);
    if positions != [] {
      RightIsCount(positions[1..], x);
      var s := Bisect.Right(positions[1..], x);
      assert forall i :: 0 <= i < |positions[1..]| ==> positions[1..][i] == positions[i + 1];
      assert s > 0 ==> positions[s] <= x;
      assert s + 1 < |positions| ==> x < positions[s + 1];
      assert r == if positions[0] <= x then 1 + s else s;
    }
  }

  lemma {:induction false} CountBelow(text: string, removed: char, at: nat, offset: nat)
    requires at <= |text| && offset <= |text|
    ensures at <= offset ==>
              CountUpTo(Positions(text, removed, at), offset - 1) + |Without(text[at..offset], removed)| == offset - at
    ensures at > offset ==> CountUpTo(Positions(text, removed, at), offset - 1) == 0
    decreases |text| - at
  {
    if at < |text| {
      CountBelow(text, removed, at + 1, offset);
      var rest := Positions(text, removed, at + 1);
      assert ([at] + rest)[1..] == rest;
      if at < offset {
        assert text[at..offset][1..] == text[at + 1..offset];
      } else if at == offset {
        assert text[at..offset] == "";
      }
    }
  }

  lemma {:induction false} WithoutAppend(a: string, b: string, removed: char)
    ensures Without(a + b, removed) == Without(a, removed) + Without(b, removed)
  {
    if a == "" {
      assert a + b == b;
    } else {
      WithoutAppend(a[1..], b, removed);
      assert (a + b)[1..] == a[1..] + b && (a + b)[0] == a[0];
      Associate([a[0]], Without(a[1..], removed), Without(b, removed));
    }
  }

  lemma {:induction false} WithoutAbsent(text: string, removed: char)
    requires removed !in text
    ensures Without(text, removed) == text
  {
    if text != "" { WithoutAbsent(text[1..], removed); }
  }

  /** Slicing commutes with deletion: what a moved block holds of the shortened text is what
      the block held, with the removed character taken out. */
  lemma SliceCommutes(text: string, start: nat, end: nat, removed: char)
    requires start <= end <= |text|
    ensures var a, b := |Without(text[..start], removed)|, |Without(text[..end], removed)|;
            && a <= b <= |Without(text, removed)|
            && Without(text, removed)[a..b] == Without(text[start..end], removed)
  {
    var head, mid, tail := text[..start], text[start..end], text[end..];
    assert text == head + mid + tail && text[..end] == head + mid;
    WithoutAppend(head + mid, tail, removed);
    WithoutAppend(head, mid, removed);
  }

  /** The whole map after a deletion: the text has lost exactly the removed characters, each
      block holds what it held without them, and the map is in order as it was. */
  lemma {:induction false} ShiftKeeps(text: string, blocks: seq<Block>, removed: char)
    requires InOrder(blocks) && forall i :: 0 <= i < |blocks| ==> blocks[i].end <= |text|
    ensures var (shorter, moved) := ShiftForRemoved(text, blocks, removed);
            && shorter == Without(text, removed)
            && |moved| == |blocks| && InOrder(moved)
            && forall i :: 0 <= i < |blocks| ==>
                 && moved[i].end <= |shorter|
                 && shorter[moved[i].start..moved[i].end]
                    == Without(text[blocks[i].start..blocks[i].end], removed)
                 && moved[i].page == blocks[i].page && moved[i].box == blocks[i].box
  {
    var (shorter, moved) := ShiftForRemoved(text, blocks, removed);
    if removed !in text {
      WithoutAbsent(text, removed);
      forall i | 0 <= i < |blocks|
        ensures Without(text[blocks[i].start..blocks[i].end], removed) == text[blocks[i].start..blocks[i].end]
      {
        WithoutAbsent(text[blocks[i].start..blocks[i].end], removed);
      }
    } else {
      forall i | 0 <= i < |blocks|
        ensures moved[i].start <= moved[i].end <= |shorter|
        ensures shorter[moved[i].start..moved[i].end]
             == Without(text[blocks[i].start..blocks[i].end], removed)
      {
        SliceCommutes(text, blocks[i].start, blocks[i].end, removed);
      }
      forall i, j | 0 <= i < j < |blocks| ensures moved[i].end <= moved[j].start {
        SliceCommutes(text, blocks[i].end, blocks[j].start, removed);
      }
    }
  }

  // ----- the anchor a range is given ---------------------------------------------------------------

  datatype Anchor = Anchor(page: int, box: Box, continues: set<int>)

  function Least(a: real, b: real): real {
    if a < b then a else b
  }

  function Greatest(a: real, b: real): real {
    if a > b then a else b
  }

  function Union(a: Box, b: Box): Box {
    Box(Least(a.x0, b.x0), Least(a.y0, b.y0), Greatest(a.x1, b.x1), Greatest(a.y1, b.y1))
  }

  predicate Inside(inner: Box, outer: Box) {
    outer.x0 <= inner.x0 && outer.y0 <= inner.y0 && inner.x1 <= outer.x1 && inner.y1 <= outer.y1
  }

  /** The rectangle of the blocks on one page, starting from the first of them. */
  function UnionOnPage(blocks: seq<Block>, page: int, box: Box): (r: Box)
    ensures Inside(box, r)
    ensures forall i :: 0 <= i < |blocks| && blocks[i].page == page ==> Inside(blocks[i].box, r)
    ensures forall outer: Box ::
      Inside(box, outer)
      && (forall i :: 0 <= i < |blocks| && blocks[i].page == page ==> Inside(blocks[i].box, outer))
      ==> Inside(r, outer)
  {
    if blocks == [] then box
    else
      var rest := UnionOnPage(blocks[1..], page, if blocks[0].page == page then Union(box, blocks[0].box) else box);
      assert forall i :: 1 <= i < |blocks| ==> blocks[i] == blocks[1..][i - 1];
      rest
  }

  /** The page the passage begins on, the rectangle it occupies there, and the further
      pages; None when it touches no block. */
  function AnchorForSpan(blocks: seq<Block>, start: int, end: int): Option<Anchor> {
    var found := Scan(blocks, start, end);
    if found == [] then None
    else
      var page := found[0].page;
      var pages := set b | b in found :: b.page;
      Some(Anchor(page, UnionOnPage(found[1..], page, found[0].box), pages - {page}))
  }

  lemma {:induction false} ScanIsFilter(blocks: seq<Block>, start: int, end: int)
    ensures forall b :: b in Scan(blocks, start, end) <==> b in blocks && Touches(b, start, end)
  {
    if blocks != [] { ScanIsFilter(blocks[1..], start, end); }
  }

  /** The first block of the map that is touched. */
  predicate FirstTouched(blocks: seq<Block>, k: int, start: int, end: int) {
    && 0 <= k < |blocks| && Touches(blocks[k], start, end)
    && forall j :: 0 <= j < k ==> !Touches(blocks[j], start, end)
  }

  lemma {:induction false} ScanBegins(blocks: seq<Block>, k: int, start: int, end: int)
    requires FirstTouched(blocks, k, start, end)
    ensures Scan(blocks, start, end) != [] && Scan(blocks, start, end)[0] == blocks[k]
  {
    ScanWindow(blocks, k, |blocks|, start, end);
    assert blocks[k..][0] == blocks[k];
  }

  ghost predicate OnTouched(blocks: seq<Block>, page: int, start: int, end: int) {
    exists b :: b in blocks && Touches(b, start, end) && b.page == page
  }

  ghost predicate HoldsTouched(blocks: seq<Block>, page: int, box: Box, start: int, end: int) {
    forall b :: b in blocks && Touches(b, start, end) && b.page == page ==> Inside(b.box, box)
  }

  /** An anchor exists exactly when some block is touched. Its page is that of the first
      touched block, its rectangle is the smallest that holds every touched block of that
      page, and its continuations are the other pages a touched block is on. */
  lemma AnchorCovers(blocks: seq<Block>, start: int, end: int)
    ensures var a := AnchorForSpan(blocks, start, end);
            && (a.Some? <==> exists b :: b in blocks && Touches(b, start, end))
            && (a.Some? ==>
                  && (forall k :: FirstTouched(blocks, k, start, end) ==> a.value.page == blocks[k].page)
                  && (forall page :: page in a.value.continues <==>
                        page != a.value.page && OnTouched(blocks, page, start, end))
                  && HoldsTouched(blocks, a.value.page, a.value.box, start, end)
                  && (forall outer: Box :: HoldsTouched(blocks, a.value.page, outer, start, end) ==>
                        Inside(a.value.box, outer)))
  {
    var found := Scan(blocks, start, end);
    ScanIsFilter(blocks, start, end);
    if found != [] {
      assert found[0] in found;
      forall k | FirstTouched(blocks, k, start, end) ensures found[0] == blocks[k] {
        ScanBegins(blocks, k, start, end);
      }
      AnchorBox(blocks, start, end);
    }
  }

  lemma AnchorBox(blocks: seq<Block>, start: int, end: int)
    requires Scan(blocks, start, end) != []
    ensures var a := AnchorForSpan(blocks, start, end).value;
            && HoldsTouched(blocks, a.page, a.box, start, end)
            && forall outer: Box :: HoldsTouched(blocks, a.page, outer, start, end) ==> Inside(a.box, outer)
  {
    var found := Scan(blocks, start, end);
    var a := AnchorForSpan(blocks, start, end).value;
    ScanIsFilter(blocks, start, end);
    assert forall i :: 0 <= i < |found[1..]| ==> found[1..][i] == found[i + 1];
    assert forall i :: 0 <= i < |found| ==> found[i] in found;
    forall b | b in found && b.page == a.page ensures Inside(b.box, a.box) {
      var i :| 0 <= i < |found| && found[i] == b;
      if i > 0 { assert found[1..][i - 1] == b; }
    }
  }
}
