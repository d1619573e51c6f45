// Where the stated ceiling stops being one: texts that break it for every minimum chunk length
// above 88, and so the exact range in which it is sound, over all caps and at a given one.
module TightCeiling {
  import opened Text
  import opened Splitting
  import opened Packing
  import opened Windows
  import opened Capping
  import opened Fitting
  import opened Chunker
  import opened Ceiling

  // ----- capping by groups of words ------------------------------------------------------------

  /** While a group of words fits the cap, the walk keeps it open. */
  lemma {:induction false} CapAbsorbs(open: Group, more: Group, rest: seq<string>, b: nat)
    requires b > 0 && open != [] && AllWords(open) && AllWords(more) && |Join(open + more)| <= b
    ensures Cap(more + rest, Join(open), b) == Cap(rest, Join(open + more), b)
    decreases |more|
  {
    if more == [] {
      assert more + rest == rest && open + more == open;
    } else {
      var next := open + [more[0]];
      assert next + more[1..] == open + more;
      JoinPrefix(next, more[1..]);
      JoinSnoc(open, more[0]);
      JoinLength(open);
      assert (more + rest)[1..] == more[1..] + rest;
      CapAbsorbs(next, more[1..], rest, b);
    }
  }

  lemma JoinPrefix(a: Group, c: Group)
    requires a != []
    ensures |Join(a)| <= |Join(a + c)|
  {
    JoinLength(a);
    JoinLength(a + c);
    WeightAppend(a, c);
  }

  /** A group that fits, followed by a word that would overflow the cap, is one piece. */
  lemma CapGroup(group: Group, rest: seq<string>, b: nat)
    requires b > 0 && group != [] && AllWords(group) && |Join(group)| <= b
    requires rest != [] ==> IsWord(rest[0]) && |rest[0]| <= b && |Join(group)| + 1 + |rest[0]| > b
    ensures Cap(group + rest, "", b) == [Join(group)] + Cap(rest, "", b)
  {
    var first := [group[0]];
    assert first + group[1..] == group && (group + rest)[1..] == group[1..] + rest;
    JoinPrefix(first, group[1..]);
    JoinLength(group);
    CapAbsorbs(first, group[1..], rest, b);
    assert Join(first) == group[0];
    if rest == [] {
      assert [Join(group)] + [] == [Join(group)];
    }
  }

  // ----- the text ------------------------------------------------------------------------------------

  const LETTERS: string := seq(65, _ => 'w')

  /** 69 characters that split into four parts at a budget of 64. */
  const FOUR: Group := ["x", LETTERS, "y"]
  /** 141 characters that split into nine. */
  const NINE: Group := FOUR + FOUR + ["z"]
  /** One more word makes 143 characters: at a cap of 142 that word becomes a chunk. */
  const TEN: Group := NINE + ["z"]

  predicate InWindow(s: string) {
    |s| <= 64
  }

  function Copies<T>(n: nat, items: seq<T>): seq<T> {
    if n == 0 then [] else items + Copies(n - 1, items)
  }

  lemma GroupLengths()
    ensures AllWords(TEN) && |TEN| == 8
    ensures |Join(FOUR)| == 69 && |Join(NINE)| == 141 && |Join(TEN)| == 143 && Weight(TEN) == 144
  {
    assert |LETTERS| == 65;
    assert Weight(["z"]) == 2;
    assert Weight(FOUR) == 70 by {
      assert FOUR[1..] == [LETTERS, "y"];
      assert [LETTERS, "y"][1..] == ["y"];
      assert Weight(["y"]) == 2;
    }
    WeightAppend(FOUR, FOUR);
    WeightAppend(FOUR + FOUR, ["z"]);
    WeightAppend(NINE, ["z"]);
    JoinLength(FOUR);
    JoinLength(NINE);
    JoinLength(TEN);
  }

  lemma FitsAlone(piece: string, b: nat)
    requires b > 0 && |piece| <= 64
    ensures FitSplit(piece, b, InWindow) == Ok([piece])
  {
  }

  lemma {:induction false} FitAllSmall(pieces: seq<string>, b: nat)
    requires b > 0 && Within(pieces, 64)
    ensures FitAll(pieces, b, InWindow) == Ok(pieces)
  {
    if pieces != [] {
      FitAllSmall(pieces[1..], b);
      assert [pieces[0]] + pieces[1..] == pieces;
    }
  }

  lemma FourParts(b: nat)
    requires b > 64
    ensures FitSplit(Join(FOUR), b, InWindow).Ok? && |FitSplit(Join(FOUR), b, InWindow).value| == 4
  {
    GroupLengths();
    WordsOfJoin(FOUR);
    assert FOUR[1..] == [LETTERS, "y"] && [LETTERS, "y"][1..] == ["y"] && ["y"][1..] == [];
    SlicesOfLongWord(LETTERS, 64);
    var pieces := Cap(FOUR, "", 64);
    assert Cap(["y"], "", 64) == ["y"];
    assert Cap([LETTERS, "y"], "x", 64) == ["x"] + Slices(LETTERS, 64) + ["y"];
    assert pieces == ["x", LETTERS[..64], LETTERS[64..], "y"];
    FitAllSmall(pieces, 64);
  }

  lemma {:induction false} NineParts(maxChars: nat)
    requires maxChars >= 141
    ensures FitSplit(Join(NINE), maxChars, InWindow).Ok? && |FitSplit(Join(NINE), maxChars, InWindow).value| == 9
  {
    GroupLengths();
    WordsOfJoin(NINE);
    FourParts(70);
    var a := Join(FOUR);
    assert NINE == FOUR + (FOUR + ["z"]);
    CapGroup(FOUR, FOUR + ["z"], 70);
    CapGroup(FOUR, ["z"], 70);
    assert Cap(["z"], "", 70) == ["z"];
    var pieces := [a, a, "z"];
    assert Cap(NINE, "", 70) == pieces;
    assert Budget(141, maxChars) == 70;
    assert Capped(Join(NINE), 70) == pieces;
    assert pieces[1..] == [a, "z"] && [a, "z"][1..] == ["z"];
    FitAllSmall(["z"], 70);
    assert |FitAll([a, "z"], 70, InWindow).value| == 5;
    assert |FitAll(pieces, 70, InWindow).value| == 9;
  }

  // ----- many of them ------------------------------------------------------------------------------------

  const SENTENCES: nat := 200

  const TEXT: string := Join(Copies(SENTENCES, TEN))

  function Witness(minChunkLength: int): Config {
    Config(TokenCount, 8, 0, minChunkLength, 142, Some(InWindow), KeepsEveryGap)
  }

  lemma {:induction false} CopiesHold(n: nat)
    ensures AllWords(Copies(n, TEN)) && Weight(Copies(n, TEN)) == 144 * n && |Copies(n, TEN)| == 8 * n
  {
    GroupLengths();
    if n > 0 {
      CopiesHold(n - 1);
      WeightAppend(TEN, Copies(n - 1, TEN));
    }
  }

  lemma {:induction false} WindowsOfCopies(words: seq<string>, start: nat, n: nat)
    requires start <= |words| && words[start..] == Copies(n, TEN)
    ensures JoinAll(WindowsFrom(words, start, 8, 8)) == Copies(n, [Join(TEN)])
    decreases n
  {
    GroupLengths();
    CopiesHold(n);
    if n == 1 {
      assert Copies(0, TEN) == [] && words[start..] == TEN;
      JoinAllCons(TEN, []);
      assert Copies(1, [Join(TEN)]) == [Join(TEN)] + Copies(0, [Join(TEN)]);
    } else if n > 1 {
      CopiesHold(n - 1);
      var tail := Copies(n - 1, TEN);
      assert words[start..start + 8] == words[start..][..8] == TEN;
      assert words[start + 8..] == words[start..][8..] == tail;
      WindowsOfCopies(words, start + 8, n - 1);
      JoinAllCons(TEN, WindowsFrom(words, start + 8, 8, 8));
    }
  }

  const PAIR: seq<string> := [Join(NINE), "z"]

  lemma TenCapped()
    ensures Capped(Join(TEN), 142) == PAIR
  {
    GroupLengths();
    WordsOfJoin(TEN);
    CapGroup(NINE, ["z"], 142);
    assert Cap(["z"], "", 142) == ["z"];
  }

  lemma {:induction false} CapCopies(n: nat)
    ensures CapAll(Copies(n, [Join(TEN)]), 142) == Copies(n, PAIR)
  {
    if n > 0 {
      TenCapped();
      CapCopies(n - 1);
      assert Copies(n, [Join(TEN)])[1..] == Copies(n - 1, [Join(TEN)]);
    }
  }

  /** No neighbours can be merged inside the cap. */
  lemma {:induction false} MergeCopies(n: nat, minLength: int)
    ensures MergeInto(Join(NINE), ["z"] + Copies(n, PAIR), minLength, 142) == PAIR + Copies(n, PAIR)
    ensures n > 0 ==> MergeInto("z", Copies(n, PAIR), minLength, 142) == ["z"] + Copies(n, PAIR)
  {
    GroupLengths();
    var rest := Copies(n, PAIR);
    if n > 0 {
      MergeCopies(n - 1, minLength);
      assert rest[0] == Join(NINE) && rest[1..] == ["z"] + Copies(n - 1, PAIR);
    }
    assert (["z"] + rest)[1..] == rest;
    assert [Join(NINE)] + (["z"] + rest) == PAIR + rest;
  }

  lemma {:induction false} FitCopies(n: nat)
    ensures FitAll(Copies(n, PAIR), 142, InWindow).Ok?
    ensures |FitAll(Copies(n, PAIR), 142, InWindow).value| == 10 * n
  {
    if n > 0 {
      FitCopies(n - 1);
      NineParts(142);
      FitsAlone("z", 142);
      var rest := Copies(n, PAIR);
      assert rest[1..] == ["z"] + Copies(n - 1, PAIR) && rest[1..][1..] == Copies(n - 1, PAIR);
      assert |FitAll(rest[1..], 142, InWindow).value| == 1 + 10 * (n - 1);
    }
  }

  lemma TextHolds()
    ensures |TEXT| == 144 * SENTENCES - 1 && !Blank(TEXT)
    ensures Words(TEXT) == Copies(SENTENCES, TEN)
  {
    CopiesHold(SENTENCES);
    JoinLength(Copies(SENTENCES, TEN));
    WordsOfJoin(Copies(SENTENCES, TEN));
    if Blank(TEXT) {
      WordsOfBlank(TEXT);
    }
  }

  lemma {:induction false} WitnessRaw(minChunkLength: int)
    ensures RawChunks(TEXT, Witness(minChunkLength)) == Copies(SENTENCES, [Join(TEN)])
  {
    TextHolds();
    assert Words(TEXT)[0..] == Words(TEXT);
    WindowsOfCopies(Words(TEXT), 0, SENTENCES);
  }

  lemma WitnessMerged(minChunkLength: int)
    requires minChunkLength > 1
    ensures Merged(Copies(SENTENCES, PAIR), minChunkLength, 142) == Copies(SENTENCES, PAIR)
  {
    var rest, capped := Copies(SENTENCES - 1, PAIR), Copies(SENTENCES, PAIR);
    assert capped == PAIR + rest;
    assert capped[0] == Join(NINE) && capped[1..] == ["z"] + rest;
    MergeCopies(SENTENCES - 1, minChunkLength);
  }

  lemma WitnessCount(minChunkLength: int)
    requires minChunkLength > 1
    ensures ChunkCount(TEXT, Witness(minChunkLength)) == 10 * SENTENCES
  {
    var c := Witness(minChunkLength);
    TextHolds();
    WitnessRaw(minChunkLength);
    CapCopies(SENTENCES);
    WitnessMerged(minChunkLength);
    FitCopies(SENTENCES);
    LocatedCount(TEXT, c, Copies(SENTENCES, PAIR));
  }

  lemma LocatedCount(text: string, c: Config, merged: seq<string>)
    requires Callable(c) && !Blank(text) && c.maxChars > 0 && c.fits.Some?
    requires MergedChunks(text, c) == merged
    requires FitAll(merged, c.maxChars, c.fits.value).Ok? && FitAll(merged, c.maxChars, c.fits.value).value != []
    ensures ChunkCount(text, c) == |FitAll(merged, c.maxChars, c.fits.value).value|
  {
    LocateOrdered(text, FitAll(merged, c.maxChars, c.fits.value).value, 0, 0);
  }

  lemma DivideByMore(x: nat, k: nat, m: nat)
    requires 0 < k <= m
    ensures x / m <= x / k
  {
    FloorBound(x, k);
    Monotone(x / m, k, m);
    assert m * (x / m) <= x;
    assert k * (x / m) <= x < k * (x / k + 1) by {
      Distribute(k, x / k, 1);
    }
    Cancel(k, x / m, x / k + 1);
  }

  /** Above 88 the stated ceiling is exceeded: 200 copies of one eight-word line, at a cap of
      142 and a window of 64 characters, come back as 2000 chunks against a ceiling of at
      most 1998. */
  lemma CeilingExceeded(minChunkLength: int)
    requires minChunkLength > 88
    ensures var c := Witness(minChunkLength);
            && Callable(c) && c.overlap == 0 && c.minChunkLength == minChunkLength
            && ChunkCount(TEXT, c) > ChunkCountCeiling(|TEXT|, minChunkLength, c.maxChars, 1)
  {
    WitnessCount(minChunkLength);
    TextHolds();
    DivideByMore(2 * |TEXT|, 89, Effective(minChunkLength, 142));
  }

  /** The ceiling is sound for one call at this minimum chunk length, whatever the text, the
      strategy, the cap and the window. */
  ghost predicate SoundFor(minChunkLength: int) {
    forall text: string, c: Config ::
      Callable(c) && Unrepeated(c) && c.minChunkLength == minChunkLength ==>
        ChunkCount(text, c) <= ChunkCountCeiling(|text|, minChunkLength, c.maxChars, 1)
  }

  /** Exactly which minimum chunk lengths the stated ceiling is sound for. */
  lemma CeilingSoundExactly(minChunkLength: int)
    ensures SoundFor(minChunkLength) <==> minChunkLength <= 88
  {
    if minChunkLength <= 88 {
      forall text: string, c: Config | Callable(c) && Unrepeated(c) && c.minChunkLength == minChunkLength
        ensures ChunkCount(text, c) <= ChunkCountCeiling(|text|, minChunkLength, c.maxChars, 1)
      {
        var call := Call(text, c);
        assert [call][1..] == [];
        assert Returned([call]) == ChunkCount(text, c) + Returned([]);
        assert Characters([call]) == |text| + Characters([]);
        CeilingHolds([call], minChunkLength, c.maxChars);
      }
    } else {
      CeilingExceeded(minChunkLength);
      var c := Witness(minChunkLength);
      assert !(ChunkCount(TEXT, c) <= ChunkCountCeiling(|TEXT|, minChunkLength, c.maxChars, 1));
    }
  }

  // ----- a given pair of limits ----------------------------------------------------------------

  function Power(j: nat): (p: nat)
    ensures p > 0
  {
    if j == 0 then 1 else 2 * Power(j - 1)
  }

  /** Twice the group and one word more, `j` times over. */
  function Doubled(group: Group, j: nat): Group {
    if j == 0 then group
    else
      var half := Doubled(group, j - 1);
      half + half + ["z"]
  }

  lemma {:induction false} DoubledLength(j: nat)
    ensures AllWords(Doubled(NINE, j)) && |Doubled(NINE, j)| == 8 * Power(j) - 1 && Doubled(NINE, j)[0] == "x"
    ensures Weight(Doubled(NINE, j)) == 144 * Power(j) - 2 && |Join(Doubled(NINE, j))| == 144 * Power(j) - 3
  {
    if j == 0 {
      GroupLengths();
      assert TEN == NINE + ["z"];
      WeightAppend(NINE, ["z"]);
      assert Weight(["z"]) == 2;
    } else {
      DoubledLength(j - 1);
      var half := Doubled(NINE, j - 1);
      WeightAppend(half, half);
      WeightAppend(half + half, ["z"]);
      assert Weight(["z"]) == 2;
    }
    JoinLength(Doubled(NINE, j));
  }

  /** Half of such a text is room for one of its groups, and not for a word more. */
  lemma HalfGroup(group: Group, b: nat)
    requires group != [] && AllWords(group) && group[0] == "x" && b == |Join(group)| + 1
    ensures Cap(group + group + ["z"], "", b) == [Join(group), Join(group), "z"]
  {
    assert group + group + ["z"] == group + (group + ["z"]);
    CapGroup(group, group + ["z"], b);
    CapGroup(group, ["z"], b);
    assert Cap(["z"], "", b) == ["z"];
    assert [Join(group)] + ([Join(group)] + ["z"]) == [Join(group), Join(group), "z"];
  }

  /** So it splits into the parts of both, and one more. */
  lemma {:induction false} DoubledSplit(group: Group, maxChars: nat, n: nat)
    requires group != [] && AllWords(group) && group[0] == "x" && |Join(group)| > 64
    requires var b := |Join(group)| + 1;
             FitSplit(Join(group), b, InWindow).Ok? && |FitSplit(Join(group), b, InWindow).value| == n
    requires maxChars >= 2 * |Join(group)| + 3
    ensures var r := FitSplit(Join(group + group + ["z"]), maxChars, InWindow); r.Ok? && |r.value| == 2 * n + 1
  {
    var b, whole := |Join(group)| + 1, group + group + ["z"];
    JoinLength(group);
    WeightAppend(group, group);
    WeightAppend(group + group, ["z"]);
    assert Weight(["z"]) == 2;
    JoinLength(whole);
    assert |Join(whole)| == 2 * b + 1;
    WordsOfJoin(whole);
    HalfGroup(group, b);
    assert Budget(2 * b + 1, maxChars) == b;
    ThreePieces(Join(group), b, n);
  }

  lemma ThreePieces(piece: string, b: nat, n: nat)
    requires b > 0 && FitSplit(piece, b, InWindow).Ok? && |FitSplit(piece, b, InWindow).value| == n
    ensures var r := FitAll([piece, piece, "z"], b, InWindow); r.Ok? && |r.value| == 2 * n + 1
  {
    var pieces := [piece, piece, "z"];
    assert pieces[1..] == [piece, "z"] && [piece, "z"][1..] == ["z"];
    FitAllSmall(["z"], b);
    assert |FitAll([piece, "z"], b, InWindow).value| == n + 1;
  }

  lemma {:induction false} DoubledParts(j: nat, maxChars: nat)
    requires maxChars >= 144 * Power(j) - 3
    ensures var r := FitSplit(Join(Doubled(NINE, j)), maxChars, InWindow); r.Ok? && |r.value| == 10 * Power(j) - 1
  {
    if j == 0 {
      NineParts(maxChars);
    } else {
      DoubledLength(j - 1);
      DoubledParts(j - 1, 144 * Power(j - 1) - 2);
      DoubledSplit(Doubled(NINE, j - 1), maxChars, 10 * Power(j - 1) - 1);
    }
  }

  /** All the words in one window. */
  function OneWindow(j: nat, minChunkLength: int, maxChars: nat): Config {
    Config(TokenCount, |Doubled(NINE, j)|, 0, minChunkLength, maxChars, Some(InWindow), KeepsEveryGap)
  }

  /** The whole text is one chunk until the window is measured. */
  lemma OneChunk(group: Group, c: Config)
    requires group != [] && AllWords(group) && c.strategy.TokenCount? && c.maxWords == |group| && c.overlap == 0
    requires |Join(group)| <= c.maxChars
    ensures !Blank(Join(group)) && MergedChunks(Join(group), c) == [Join(group)]
  {
    var text := Join(group);
    WordsOfJoin(group);
    if Blank(text) { WordsOfBlank(text); }
    assert group[0..] == group;
    JoinAllCons(group, []);
    assert RawChunks(text, c) == [text];
    assert [text][1..] == [] && [text] + [] == [text];
    assert CapAll([text], c.maxChars) == [text] + CapAll([], c.maxChars);
  }

  /** At any pair of limits with room for them, 144 * 2^j - 3 characters come back as
      10 * 2^j - 1 chunks. */
  lemma DoubledCount(j: nat, minChunkLength: int, maxChars: nat)
    requires maxChars >= 144 * Power(j) - 3
    ensures var c := OneWindow(j, minChunkLength, maxChars);
            && Callable(c) && Unrepeated(c) && ChunkCount(Join(Doubled(NINE, j)), c) == 10 * Power(j) - 1
  {
    var c, text := OneWindow(j, minChunkLength, maxChars), Join(Doubled(NINE, j));
    DoubledLength(j);
    DoubledParts(j, maxChars);
    OneChunk(Doubled(NINE, j), c);
    assert [text][1..] == [] && FitAll([], maxChars, InWindow) == Ok([]);
    assert |FitAll([text], maxChars, InWindow).value| == 10 * Power(j) - 1;
    LocatedCount(text, c, [text]);
  }

  /** The ceiling is sound for one call at this pair of limits, whatever the text, the
      strategy and the window. */
  ghost predicate SoundAt(minChunkLength: int, maxChars: int) {
    forall text: string, c: Config ::
      Callable(c) && Unrepeated(c) && c.minChunkLength == minChunkLength && c.maxChars == maxChars ==>
        ChunkCount(text, c) <= ChunkCountCeiling(|text|, minChunkLength, maxChars, 1)
  }

  lemma SoundAtSmall(minChunkLength: int, maxChars: int)
    requires Smaller(minChunkLength, maxChars) <= 88
    ensures SoundAt(minChunkLength, maxChars)
  {
    forall text: string, c: Config | Callable(c) && Unrepeated(c) && c.minChunkLength == minChunkLength && c.maxChars == maxChars
      ensures ChunkCount(text, c) <= ChunkCountCeiling(|text|, minChunkLength, maxChars, 1)
    {
      var call := Call(text, c);
      assert [call][1..] == [];
      assert Returned([call]) == ChunkCount(text, c) + Returned([]);
      assert Characters([call]) == |text| + Characters([]);
      CeilingHolds([call], minChunkLength, maxChars);
    }
  }

  /** Room for the `j`-th text, and a minimum past which the ceiling is below its chunks. */
  lemma ExceededAt(j: nat, least: nat, minChunkLength: int, maxChars: nat)
    requires maxChars >= 144 * Power(j) - 3 && 0 < least <= Smaller(minChunkLength, maxChars)
    requires var characters := 144 * Power(j) - 3;
             2 * characters / least + 3 * characters / MIN_FIT_CHARS + 2 < 10 * Power(j) - 1
    ensures !SoundAt(minChunkLength, maxChars)
  {
    var c, text := OneWindow(j, minChunkLength, maxChars), Join(Doubled(NINE, j));
    DoubledLength(j);
    DoubledCount(j, minChunkLength, maxChars);
    DivideByMore(2 * |text|, least, Effective(minChunkLength, maxChars));
    assert !(ChunkCount(text, c) <= ChunkCountCeiling(|text|, minChunkLength, maxChars, 1));
  }

  /** Pairs of limits at which the stated ceiling is exceeded by a text that fits the cap. */
  lemma CeilingExceededBeyond(minChunkLength: int, maxChars: nat)
    requires || (minChunkLength >= 143 && maxChars >= 285)
             || (minChunkLength >= 105 && maxChars >= 573)
             || (minChunkLength >= 96 && maxChars >= 1149)
             || (minChunkLength >= 93 && maxChars >= 2301)
             || (minChunkLength >= 89 && maxChars >= 36861)
    ensures !SoundAt(minChunkLength, maxChars)
  {
    assert Power(1) == 2 && Power(2) == 4 && Power(3) == 8 && Power(4) == 16 && Power(8) == 256 by {
      assert Power(5) == 32 && Power(6) == 64 && Power(7) == 128;
    }
    if minChunkLength >= 143 && maxChars >= 285 {
      ExceededAt(1, 143, minChunkLength, maxChars);
    } else if minChunkLength >= 105 && maxChars >= 573 {
      ExceededAt(2, 105, minChunkLength, maxChars);
    } else if minChunkLength >= 96 && maxChars >= 1149 {
      ExceededAt(3, 96, minChunkLength, maxChars);
    } else if minChunkLength >= 93 && maxChars >= 2301 {
      ExceededAt(4, 93, minChunkLength, maxChars);
    } else {
      ExceededAt(8, 89, minChunkLength, maxChars);
    }
  }

  /** Exactly which pairs are sound, at a cap of 36861 or more. */
  lemma CeilingSoundAtExactly(minChunkLength: int, maxChars: nat)
    requires maxChars >= 36861
    ensures SoundAt(minChunkLength, maxChars) <==> minChunkLength <= 88
  {
    if minChunkLength <= 88 {
      SoundAtSmall(minChunkLength, maxChars);
    } else {
      CeilingExceededBeyond(minChunkLength, maxChars);
    }
  }
}
