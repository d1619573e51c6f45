// Strings as the repository's own string operations see them: the whitespace test
// shared by str.split, str.strip and the regex class \s, word splitting, joining, and
// the "ink" of a text, which is what is left of it when every whitespace character is
// taken out.
module Text {

  datatype Option<+T> = None | Some(value: T)

  datatype Result<+T, +E> = Ok(value: T) | Err(error: E)

  /** The characters Python's str.isspace accepts. */
  predicate IsSpace(c: char) {
    || '\t' <= c <= '\r'
    || '\U{1C}' <= c <= ' '
    || c == '\U{85}' || c == '\U{A0}' || c == '\U{1680}'
    || '\U{2000}' <= c <= '\U{200A}'
    || c == '\U{2028}' || c == '\U{2029}' || c == '\U{202F}' || c == '\U{205F}' || c == '\U{3000}'
  }

  predicate Blank(s: string) {
    forall i :: 0 <= i < |s| ==> IsSpace(s[i])
  }

  predicate NoSpace(s: string) {
    forall i :: 0 <= i < |s| ==> !IsSpace(s[i])
  }

  /** A word as str.split returns one. */
  predicate IsWord(s: string) {
    s != "" && NoSpace(s)
  }

  predicate AllWords(ws: seq<string>) {
    forall i :: 0 <= i < |ws| ==> IsWord(ws[i])
  }

  /** Length of the longest prefix without whitespace. */
  function WordLength(s: string): (n: nat)
    ensures n <= |s| && NoSpace(s[..n]) && (n < |s| ==> IsSpace(s[n]))
  {
    if s == "" || IsSpace(s[0]) then 0
    else
      var n := 1 + WordLength(s[1..]);
      assert s[..n] == [s[0]] + s[1..][..n - 1];
      n
  }

  /** str.split(): the maximal whitespace-free runs, in order. */
  function Words(s: string): (ws: seq<string>)
    ensures AllWords(ws)
    decreases |s|
  {
    if s == "" then []
    else if IsSpace(s[0]) then Words(s[1..])
    else
      var n := WordLength(s);
      [s[..n]] + Words(s[n..])
  }

  /** " ".join */
  function Join(parts: seq<string>): string {
    JoinWith(" ", parts)
  }

  function JoinWith(separator: string, parts: seq<string>): string {
    if |parts| == 0 then ""
    else if |parts| == 1 then parts[0]
    else parts[0] + separator + JoinWith(separator, parts[1..])
  }

  /** "".join */
  function Concat(parts: seq<string>): string {
    if parts == [] then "" else parts[0] + Concat(parts[1..])
  }

  /** Everything but the whitespace. */
  function Ink(s: string): (r: string)
    ensures NoSpace(r) && |r| <= |s|
  {
    if s == "" then ""
    else if IsSpace(s[0]) then Ink(s[1..])
    else [s[0]] + Ink(s[1..])
  }

  /** Characters held by the parts, counting one separator after each. */
  function Weight(parts: seq<string>): nat {
    if parts == [] then 0 else |parts[0]| + 1 + Weight(parts[1..])
  }

  /** str.strip() */
  function LeftStrip(s: string): string {
    if s != "" && IsSpace(s[0]) then LeftStrip(s[1..]) else s
  }

  function RightStrip(s: string): string {
    if s != "" && IsSpace(s[|s| - 1]) then RightStrip(s[..|s| - 1]) else s
  }

  function Strip(s: string): string {
    RightStrip(LeftStrip(s))
  }

  /** Text that neither begins nor ends in whitespace and is not empty. */
  predicate Trimmed(s: string) {
    s != "" && !IsSpace(s[0]) && !IsSpace(s[|s| - 1])
  }

  lemma Associate<T>(a: seq<T>, b: seq<T>, c: seq<T>)
    ensures (a + b) + c == a + (b + c)
  {
  }

  // ----- facts about concatenation -------------------------------------------------

  lemma {:induction false} ConcatAppend(a: seq<string>, b: seq<string>)
    ensures Concat(a + b) == Concat(a) + Concat(b)
  {
    if a == [] {
      assert a + b == b;
    } else {
      ConcatAppend(a[1..], b);
      assert (a + b)[1..] == a[1..] + b;
    }
  }

  lemma ConcatCons(head: string, rest: seq<string>)
    ensures Concat([head]) == head
    ensures Concat([head] + rest) == head + Concat(rest)
  {
    assert [head][1..] == [];
    assert ([head] + rest)[1..] == rest;
  }

  lemma {:induction false} WeightAppend(a: seq<string>, b: seq<string>)
    ensures Weight(a + b) == Weight(a) + Weight(b)
  {
    if a == [] {
      assert a + b == b;
    } else {
      WeightAppend(a[1..], b);
      assert (a + b)[1..] == a[1..] + b;
    }
  }

  /** What one character adds to the ink. */
  function InkOf(c: char): string {
    if IsSpace(c) then "" else [c]
  }

  lemma InkCons(s: string)
    requires s != ""
    ensures Ink(s) == InkOf(s[0]) + Ink(s[1..])
  {
  }

  lemma {:induction false} InkAppend(a: string, b: string)
    ensures Ink(a + b) == Ink(a) + Ink(b)
  {
    if a == "" {
      assert a + b == b;
    } else {
      InkAppend(a[1..], b);
      assert (a + b)[1..] == a[1..] + b && (a + b)[0] == a[0];
      InkCons(a);
      InkCons(a + b);
      Associate(InkOf(a[0]), Ink(a[1..]), Ink(b));
    }
  }

  lemma InkAcrossSpace(a: string, b: string)
    ensures Ink(a + " " + b) == Ink(a) + Ink(b)
  {
    InkAppend(a + " ", b);
    InkAppend(a, " ");
    assert Ink(" ") == "";
  }

  lemma {:induction false} InkOfBlank(s: string)
    requires Blank(s)
    ensures Ink(s) == ""
  {
    if s != "" { InkOfBlank(s[1..]); }
  }

  lemma {:induction false} InkOfNoSpace(s: string)
    requires NoSpace(s)
    ensures Ink(s) == s
  {
    if s != "" { InkOfNoSpace(s[1..]); }
  }

  /** A text has ink exactly when it is not blank. */
  lemma {:induction false} InkEmptyIffBlank(s: string)
    ensures Ink(s) == "" <==> Blank(s)
  {
    if s != "" {
      InkEmptyIffBlank(s[1..]);
      assert s == [s[0]] + s[1..];
    }
  }

  /** Splitting into words keeps the ink, in order, and nothing else. */
  lemma {:induction false} WordsKeepInk(s: string)
    ensures Concat(Words(s)) == Ink(s)
    decreases |s|
  {
    if s == "" {
    } else if IsSpace(s[0]) {
      WordsKeepInk(s[1..]);
    } else {
      var n := WordLength(s);
      WordsKeepInk(s[n..]);
      assert s == s[..n] + s[n..];
      InkAppend(s[..n], s[n..]);
      InkOfNoSpace(s[..n]);
    }
  }

  /** Words cannot hold more characters than the text, one separator apiece counted. */
  lemma {:induction false} WordsWeight(s: string)
    ensures Weight(Words(s)) <= |s| + 1
    ensures s != "" && IsSpace(s[0]) ==> Weight(Words(s)) <= |s|
    decreases |s|
  {
    if s == "" {
    } else if IsSpace(s[0]) {
      WordsWeight(s[1..]);
    } else {
      WordsWeight(s[WordLength(s)..]);
    }
  }

  lemma {:induction false} WordsOfWord(w: string)
    requires IsWord(w)
    ensures Words(w) == [w]
  {
    assert WordLength(w) == |w|;
    assert w[..|w|] == w;
  }

  lemma {:induction false} WordsOfBlank(s: string)
    requires Blank(s)
    ensures Words(s) == []
  {
    if s != "" { WordsOfBlank(s[1..]); }
  }

  lemma FirstWord(s: string)
    requires s != "" && !IsSpace(s[0])
    ensures Words(s) == [s[..WordLength(s)]] + Words(s[WordLength(s)..])
  {
  }

  /** A whitespace character separates words. */
  lemma {:induction false} WordsAcrossSpace(a: string, c: char, b: string)
    requires IsSpace(c)
    ensures Words(a + [c] + b) == Words(a) + Words(b)
    decreases |a|
  {
    var s := a + [c] + b;
    if a == "" {
      assert s[1..] == b;
    } else if IsSpace(a[0]) {
      WordsAcrossSpace(a[1..], c, b);
      assert s[1..] == a[1..] + [c] + b;
    } else {
      var n := WordLength(a);
      WordLengthAcrossSpace(a, c, b);
      WordsAcrossSpace(a[n..], c, b);
      assert s[n..] == a[n..] + [c] + b;
      assert s[..n] == a[..n];
      FirstWord(s);
      FirstWord(a);
      Associate([a[..n]], Words(a[n..]), Words(b));
    }
  }

  lemma {:induction false} WordLengthAcrossSpace(a: string, c: char, b: string)
    requires IsSpace(c)
    ensures WordLength(a + [c] + b) == WordLength(a)
  {
    var s := a + [c] + b;
    var n, m := WordLength(s), WordLength(a);
    assert IsSpace(s[m]);
    assert forall i :: 0 <= i < m ==> s[i] == a[..m][i];
    assert forall i :: 0 <= i < n ==> s[i] == s[..n][i];
  }

  /** " ".join of words splits back into the same words. */
  lemma {:induction false} WordsOfJoin(ws: seq<string>)
    requires AllWords(ws)
    ensures Words(Join(ws)) == ws
  {
    if |ws| == 0 {
    } else if |ws| == 1 {
      WordsOfWord(ws[0]);
    } else {
      WordsOfJoin(ws[1..]);
      WordsOfWord(ws[0]);
      WordsAcrossSpace(ws[0], ' ', Join(ws[1..]));
    }
  }

  lemma {:induction false} JoinInk(parts: seq<string>)
    ensures Ink(Join(parts)) == Ink(Concat(parts))
  {
    if |parts| == 0 {
    } else if |parts| == 1 {
      assert Concat(parts[1..]) == "";
      assert parts[0] + "" == parts[0];
    } else {
      JoinInk(parts[1..]);
      InkAppend(parts[0], " " + Join(parts[1..]));
      InkAppend(" ", Join(parts[1..]));
      assert parts[0] + (" " + Join(parts[1..])) == Join(parts);
      assert Ink(" ") == "";
      InkAppend(parts[0], Concat(parts[1..]));
    }
  }

  lemma {:induction false} JoinLength(parts: seq<string>)
    requires parts != []
    ensures |Join(parts)| + 1 == Weight(parts)
  {
    if |parts| > 1 { JoinLength(parts[1..]); }
  }

  lemma {:induction false} JoinSnoc(parts: seq<string>, last: string)
    requires parts != []
    ensures Join(parts + [last]) == Join(parts) + " " + last
  {
    if |parts| == 1 {
      assert (parts + [last])[1..] == [last];
      assert Join(parts + [last]) == parts[0] + " " + Join([last]);
    } else {
      JoinSnoc(parts[1..], last);
      assert (parts + [last])[1..] == parts[1..] + [last];
      assert parts[0] + " " + (Join(parts[1..]) + " " + last) == Join(parts) + " " + last;
    }
  }

  lemma {:induction false} JoinTrimmed(parts: seq<string>)
    requires parts != [] && forall i :: 0 <= i < |parts| ==> Trimmed(parts[i])
    ensures Trimmed(Join(parts))
  {
    if |parts| > 1 {
      JoinTrimmed(parts[1..]);
    }
  }

  // ----- facts about stripping -----------------------------------------------------

  /** How much whitespace str.strip takes off each end. */
  function LeadingSpace(s: string): (n: nat)
    ensures n <= |s| && Blank(s[..n]) && (n < |s| ==> !IsSpace(s[n]))
  {
    if s != "" && IsSpace(s[0]) then
      var n := 1 + LeadingSpace(s[1..]);
      assert s[..n] == [s[0]] + s[1..][..n - 1];
      n
    else 0
  }

  lemma {:induction false} LeftStripIs(s: string)
    ensures LeftStrip(s) == s[LeadingSpace(s)..]
  {
    if s != "" && IsSpace(s[0]) {
      LeftStripIs(s[1..]);
    }
  }

  /** Where the trailing whitespace begins. */
  function TrailingStart(s: string): (n: nat)
    ensures n <= |s| && Blank(s[n..]) && (n > 0 ==> !IsSpace(s[n - 1]))
  {
    if s != "" && IsSpace(s[|s| - 1]) then
      var n := TrailingStart(s[..|s| - 1]);
      assert s[n..] == s[..|s| - 1][n..] + [s[|s| - 1]];
      n
    else |s|
  }

  lemma {:induction false} RightStripIs(s: string)
    ensures RightStrip(s) == s[..TrailingStart(s)]
  {
    if s != "" && IsSpace(s[|s| - 1]) {
      var t := s[..|s| - 1];
      RightStripIs(t);
      assert t[..TrailingStart(t)] == s[..TrailingStart(t)];
    }
  }

  /** One past the last character str.strip keeps. */
  function StripEnd(s: string): nat {
    LeadingSpace(s) + TrailingStart(s[LeadingSpace(s)..])
  }

  /** str.strip as a slice: only whitespace is dropped at either end, and what stays
      neither begins nor ends in whitespace. */
  lemma StripSpan(s: string) returns (from: nat, to: nat)
    ensures from == LeadingSpace(s) && to == StripEnd(s)
    ensures from <= to <= |s| && Strip(s) == s[from..to]
    ensures Blank(s[..from]) && Blank(s[to..])
    ensures from < to ==> Trimmed(Strip(s))
  {
    from := LeadingSpace(s);
    LeftStripIs(s);
    var t := s[from..];
    RightStripIs(t);
    var n := TrailingStart(t);
    to := from + n;
    assert t[..n] == s[from..to];
    assert s[to..] == t[n..];
    if n > 0 {
      var r := t[..n];
      assert r[n - 1] == t[n - 1] && r[0] == t[0] == s[from];
      assert Strip(s) == r;
    }
  }

  lemma StripTrimmed(s: string)
    ensures Strip(s) == "" || Trimmed(Strip(s))
  {
    var i, j := StripSpan(s);
  }

  lemma StripKeepsInk(s: string)
    ensures Ink(Strip(s)) == Ink(s)
    ensures |Strip(s)| <= |s|
    ensures Blank(s) <==> Strip(s) == ""
  {
    var i, j := StripSpan(s);
    InkInside(s, i, j);
    InkEmptyIffBlank(s);
    InkEmptyIffBlank(Strip(s));
    if i < j { TrimmedNotBlank(Strip(s)); }
  }

  lemma TrimmedNotBlank(s: string)
    requires Trimmed(s)
    ensures !Blank(s)
  {
  }

  /** Whitespace at the ends holds no ink. */
  lemma InkInside(s: string, i: nat, j: nat)
    requires i <= j <= |s| && Blank(s[..i]) && Blank(s[j..])
    ensures Ink(s) == Ink(s[i..j])
  {
    InkDropFront(s, i);
    assert s[i..] == s[i..j] + s[j..];
    InkAppend(s[i..j], s[j..]);
    InkOfBlank(s[j..]);
  }

  lemma InkDropFront(s: string, i: nat)
    requires i <= |s| && Blank(s[..i])
    ensures Ink(s) == Ink(s[i..])
  {
    assert s == s[..i] + s[i..];
    InkAppend(s[..i], s[i..]);
    InkOfBlank(s[..i]);
  }
}
