// Bounding a piece in characters: words are packed up to the cap, and a word that is
// itself over the cap is sliced.
module Capping {
  import opened Text
  import opened Splitting

  /** A word cut every b characters. */
  function Slices(word: string, b: nat): seq<string>
    requires b > 0
    decreases |word|
  {
    if |word| == 0 then []
    else if |word| <= b then [word]
    else [word[..b]] + Slices(word[b..], b)
  }

  /** The pieces still to come when `current` is open and `words` are left. */
  function Cap(words: seq<string>, current: string, b: nat): seq<string>
    requires b > 0
    decreases |words|
  {
    if words == [] then (if current == "" then [] else [current])
    else
      var word, rest := words[0], words[1..];
      if |word| > b then
        (if current == "" then [] else [current]) + Slices(word, b) + Cap(rest, "", b)
      else if current == "" then Cap(rest, word, b)
      else if |current| + 1 + |word| <= b then Cap(rest, current + " " + word, b)
      else [current] + Cap(rest, word, b)
  }

  function Capped(text: string, b: nat): seq<string>
    requires b > 0
  {
    if |text| <= b then [text] else Cap(Words(text), "", b)
  }

  /** word[i : i + max_chars] for i in range(0, len(word), max_chars) */
  method SliceWord(word: string, maxChars: nat) returns (slices: seq<string>)
    requires maxChars > 0
    ensures slices == Slices(word, maxChars)
  {
    slices := [];
    var i := 0;
    while i < |word|
      invariant i <= |word|
      invariant slices + Slices(word[i..], maxChars) == Slices(word, maxChars)
    {
      var end := if i + maxChars < |word| then i + maxChars else |word|;
      if i + maxChars < |word| {
        assert word[i..][..maxChars] == word[i..end];
        assert word[i..][maxChars..] == word[end..];
      } else {
        assert word[i..] == word[i..end];
      }
      slices := slices + [word[i..end]];
      i := end;
    }
    assert Slices(word[i..], maxChars) == [];
  }

  /** One word of the walk. */
  lemma CapStep(words: seq<string>, k: nat, current: string, b: nat)
    requires b > 0 && k < |words|
    ensures var word, closed := words[k], if current == "" then [] else [current];
            Cap(words[k..], current, b) ==
            if |word| > b then closed + Slices(word, b) + Cap(words[k + 1..], "", b)
            else if current == "" then Cap(words[k + 1..], word, b)
            else if |current| + 1 + |word| <= b then Cap(words[k + 1..], current + " " + word, b)
            else [current] + Cap(words[k + 1..], word, b)
  {
    assert words[k..][1..] == words[k + 1..];
  }

  /** The same step, behind the pieces closed so far. */
  lemma CapStepAfter(pieces: seq<string>, words: seq<string>, k: nat, current: string, b: nat)
    requires b > 0 && k < |words|
    ensures var word, closed := words[k], if current == "" then pieces else pieces + [current];
            pieces + Cap(words[k..], current, b) ==
            if |word| > b then (closed + Slices(word, b)) + Cap(words[k + 1..], "", b)
            else if current == "" then pieces + Cap(words[k + 1..], word, b)
            else if |current| + 1 + |word| <= b then pieces + Cap(words[k + 1..], current + " " + word, b)
            else (pieces + [current]) + Cap(words[k + 1..], word, b)
  {
    var word := words[k];
    CapStep(words, k, current, b);
    if |word| > b {
      var slices, rest := Slices(word, b), Cap(words[k + 1..], "", b);
      if current == "" {
        assert [] + slices == slices;
        Associate(pieces, slices, rest);
      } else {
        Associate([current], slices, rest);
        Associate(pieces, [current], slices + rest);
        Associate(pieces + [current], slices, rest);
      }
    } else if current != "" {
      Associate(pieces, [current], Cap(words[k + 1..], word, b));
    }
  }

  method EnforceMaxChars(text: string, maxChars: nat) returns (pieces: seq<string>)
    requires maxChars > 0
    ensures pieces == Capped(text, maxChars)
  {
    if |text| <= maxChars {
      return [text];
    }
    pieces := [];
    var current := "";
    var words := Words(text);
    for k := 0 to |words|
      invariant pieces + Cap(words[k..], current, maxChars) == Cap(words, "", maxChars)
    {
      var word := words[k];
      CapStep(words, k, current, maxChars);
      CapStepAfter(pieces, words, k, current, maxChars);
      if |word| > maxChars {
        if current != "" {
          pieces := pieces + [current];
          current := "";
        }
        var slices := SliceWord(word, maxChars);
        pieces := pieces + slices;
      } else if current == "" {
        current := word;
      } else if |current| + 1 + |word| <= maxChars {
        current := current + " " + word;
      } else {
        pieces := pieces + [current];
        current := word;
      }
    }
    if current != "" {
      pieces := pieces + [current];
    }
  }

  // ----- what capping keeps ----------------------------------------------------------

  predicate Within(pieces: seq<string>, b: nat) {
    forall i :: 0 <= i < |pieces| ==> |pieces[i]| <= b
  }

  /** A piece with no whitespace that fills the cap may be a slice, and then nothing
      separates it from the piece after it. Every other piece is followed by whitespace. */
  predicate MaybeSlice(piece: string, b: nat) {
    |piece| == b && NoSpace(piece)
  }

  function Span(piece: string, b: nat): nat {
    |piece| + if MaybeSlice(piece, b) then 0 else 1
  }

  /** Characters of the source the pieces account for, separators included. */
  function Spans(pieces: seq<string>, b: nat): nat {
    if pieces == [] then 0 else Span(pieces[0], b) + Spans(pieces[1..], b)
  }

  lemma {:induction false} SpansAppend(a: seq<string>, c: seq<string>, b: nat)
    ensures Spans(a + c, b) == Spans(a, b) + Spans(c, b)
  {
    if a == [] {
      assert a + c == c;
    } else {
      SpansAppend(a[1..], c, b);
      assert (a + c)[1..] == a[1..] + c;
    }
  }

  /** What the walk has still to place: the open piece and the words left, one separator
      apiece. */
  function Pending(words: seq<string>, current: string): nat {
    (if current == "" then 0 else |current| + 1) + Weight(words)
  }

  lemma {:induction false} SlicesKeep(word: string, b: nat)
    requires b > 0 && NoSpace(word)
    ensures var r := Slices(word, b);
            && Concat(r) == word && Within(r, b) && AllTrimmed(r) && Spans(r, b) <= |word| + 1
            && forall i :: 0 <= i < |r| ==> NoSpace(r[i])
    decreases |word|
  {
    if |word| > b {
      SlicesKeep(word[b..], b);
      var rest := Slices(word[b..], b);
      assert ([word[..b]] + rest)[1..] == rest;
      assert word == word[..b] + word[b..];
    } else if |word| > 0 {
      assert Concat([word]) == word + Concat([]);
    }
  }

  /** The state a capping walk is in: an open piece of whole words inside the cap. */
  predicate Open(words: seq<string>, current: string, b: nat) {
    b > 0 && AllWords(words) && |current| <= b && (current == "" || Trimmed(current))
  }

  lemma {:induction false} CapBounds(words: seq<string>, current: string, b: nat)
    requires Open(words, current, b)
    ensures var r := Cap(words, current, b);
            Within(r, b) && AllTrimmed(r) && Spans(r, b) <= Pending(words, current)
    decreases |words|
  {
    if words != [] {
      var word, rest := words[0], words[1..];
      if |word| > b {
        var open, slices, tail := if current == "" then [] else [current], Slices(word, b), Cap(rest, "", b);
        CapBounds(rest, "", b);
        SlicesKeep(word, b);
        SpansAppend(open + slices, tail, b);
        SpansAppend(open, slices, b);
      } else if current == "" {
        CapBounds(rest, word, b);
      } else if |current| + 1 + |word| <= b {
        CapBounds(rest, current + " " + word, b);
      } else {
        CapBounds(rest, word, b);
        assert ([current] + Cap(rest, word, b))[1..] == Cap(rest, word, b);
      }
    }
  }

  lemma SlicedKeepsInk(open: seq<string>, current: string, word: string, tail: seq<string>, b: nat)
    requires b > 0 && IsWord(word) && Ink(Concat(open)) == Ink(current)
    ensures Ink(Concat(open + Slices(word, b) + tail)) == Ink(current) + word + Ink(Concat(tail))
  {
    var slices := Slices(word, b);
    SlicesKeep(word, b);
    InkOfNoSpace(word);
    ConcatAppend(open + slices, tail);
    ConcatAppend(open, slices);
    InkAppend(Concat(open) + word, Concat(tail));
    InkAppend(Concat(open), word);
  }

  lemma ClosedKeepsInk(current: string, tail: seq<string>)
    ensures Ink(Concat([current] + tail)) == Ink(current) + Ink(Concat(tail))
  {
    ConcatCons(current, tail);
    InkAppend(current, Concat(tail));
  }

  /** A word too long for the cap closes the open piece and is sliced. */
  lemma SlicedStep(words: seq<string>, current: string, b: nat)
    requires b > 0 && words != [] && IsWord(words[0]) && |words[0]| > b
    requires Ink(Concat(Cap(words[1..], "", b))) == Concat(words[1..])
    ensures Ink(Concat(Cap(words, current, b))) == Ink(current) + Concat(words)
  {
    var open := if current == "" then [] else [current];
    ConcatCons(current, []);
    SlicedKeepsInk(open, current, words[0], Cap(words[1..], "", b), b);
    Associate(Ink(current), words[0], Concat(words[1..]));
  }

  lemma {:induction false} CapKeepsInk(words: seq<string>, current: string, b: nat)
    requires Open(words, current, b)
    ensures Ink(Concat(Cap(words, current, b))) == Ink(current) + Concat(words)
    decreases |words|
  {
    if words == [] {
      ConcatCons(current, []);
    } else {
      var word, rest := words[0], words[1..];
      InkOfNoSpace(word);
      if |word| > b {
        CapKeepsInk(rest, "", b);
        assert Ink("") + Concat(rest) == Concat(rest);
        SlicedStep(words, current, b);
      } else if current == "" {
        CapKeepsInk(rest, word, b);
      } else if |current| + 1 + |word| <= b {
        CapKeepsInk(rest, current + " " + word, b);
        InkAcrossSpace(current, word);
        Associate(Ink(current), word, Concat(rest));
      } else {
        CapKeepsInk(rest, word, b);
        ClosedKeepsInk(current, Cap(rest, word, b));
      }
    }
  }

  /** Capping a trimmed piece gives trimmed pieces inside the cap that hold its ink in
      order and account for no more of the source than it did. */
  lemma CappedKeeps(text: string, b: nat)
    requires b > 0 && Trimmed(text)
    ensures var r := Capped(text, b);
            && Within(r, b) && AllTrimmed(r) && Ink(Concat(r)) == Ink(text)
            && Spans(r, b) <= |text| + 1
  {
    if |text| <= b {
      ConcatCons(text, []);
    } else {
      CapBounds(Words(text), "", b);
      CapKeepsInk(Words(text), "", b);
      WordsKeepInk(text);
      WordsWeight(text);
    }
  }

  // ----- how many pieces a split can give ---------------------------------------------

  /** Once what is left fits the cap there is at most one more piece. */
  lemma {:induction false} OneLeft(words: seq<string>, current: string, b: nat)
    requires Open(words, current, b) && Pending(words, current) <= b + 1
    ensures |Cap(words, current, b)| <= 1
    ensures Weight(Cap(words, current, b)) <= Pending(words, current)
    decreases |words|
  {
    if words != [] {
      var word, rest := words[0], words[1..];
      if current == "" {
        OneLeft(rest, word, b);
      } else {
        OneLeft(rest, current + " " + word, b);
      }
    }
  }

  /** After a first piece has been closed by an overflow, what is left of a text of at most
      2b + 1 characters gives at most two more. `closed` is that piece and its separator. */
  lemma {:induction false} TwoLeft(words: seq<string>, current: string, b: nat, closed: nat)
    requires Open(words, current, b) && current != ""
    requires closed + |current| >= b + 1
    requires closed + Pending(words, current) <= 2 * b + 2
    ensures |Cap(words, current, b)| <= 2
    ensures Weight(Cap(words, current, b)) <= Pending(words, current)
    decreases |words|
  {
    if words != [] {
      var word, rest := words[0], words[1..];
      assert |word| <= b;
      if |current| + 1 + |word| <= b {
        TwoLeft(rest, current + " " + word, b, closed);
      } else {
        OneLeft(rest, word, b);
        assert ([current] + Cap(rest, word, b))[1..] == Cap(rest, word, b);
      }
    }
  }

  /** A split of a text of at most 2b + 1 characters: three pieces at most, or one sliced
      word with at most one piece on either side of it. */
  datatype Shape = Packed | Sliced(before: seq<string>, word: string, after: seq<string>)

  ghost predicate HasShape(pieces: seq<string>, shape: Shape, b: nat, pending: nat)
    requires b > 0
  {
    match shape
    case Packed => |pieces| <= 3 && Weight(pieces) <= pending
    case Sliced(before, word, after) =>
      && pieces == before + Slices(word, b) + after
      && |before| <= 1 && |after| <= 1
      && b < |word| && NoSpace(word)
      && Weight(before) + |word| + 1 + Weight(after) <= pending
  }

  lemma {:induction false} SplitShape(words: seq<string>, current: string, b: nat) returns (shape: Shape)
    requires Open(words, current, b) && Pending(words, current) <= 2 * b + 2
    ensures HasShape(Cap(words, current, b), shape, b, Pending(words, current))
    decreases |words|
  {
    shape := Packed;
    if words != [] {
      var word, rest := words[0], words[1..];
      if |word| > b {
        OneLeft(rest, "", b);
        var open := if current == "" then [] else [current];
        shape := Sliced(open, word, Cap(rest, "", b));
        assert Weight([current]) == |current| + 1 + Weight([]);
      } else if current == "" {
        shape := SplitShape(rest, word, b);
      } else if |current| + 1 + |word| <= b {
        shape := SplitShape(rest, current + " " + word, b);
      } else {
        TwoLeft(rest, word, b, |current| + 1);
        assert ([current] + Cap(rest, word, b))[1..] == Cap(rest, word, b);
      }
    }
  }
}
