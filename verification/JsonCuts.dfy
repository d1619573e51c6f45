// What is left when a JSON line is cut inside one of its strings: nothing that parses as an
// object with members.
module JsonCuts {
  import opened Text
  import opened Json
  import Decimal

  // ----- the part before the cut -------------------------------------------------------------

  lemma QuotedCut(text: string, rest: string, k: nat)
    requires k <= |Quoted(text, rest)| - |rest| - 1
    ensures ReadValue(Quoted(text, rest)[..k]) == None
  {
    var s := Quoted(text, rest);
    if k > 0 {
      assert s[..k][1..] == Escaped(text)[..k - 1];
      EscapedCut(text, k - 1);
    }
  }

  /** A space, then a value, cut. */
  lemma SpaceCut(value: string, k: nat)
    requires value != "" && !IsBlank(value[0]) && k <= |" " + value|
    ensures SkipBlanks((" " + value)[..k]) == if k <= 1 then "" else value[..k - 1]
  {
    var t := (" " + value)[..k];
    if k == 0 {
      assert t == "";
    } else {
      assert t[0] == ' ' && t[1..] == value[..k - 1];
    }
  }

  lemma ColonCut(text: string, rest: string, k: nat)
    requires k <= |": " + Quoted(text, rest)| - |rest| - 1
    ensures var t := (": " + Quoted(text, rest))[..k];
            t == "" || (t[0] == ':' && ReadValue(SkipBlanks(t[1..])) == None)
  {
    var value := Quoted(text, rest);
    var t := (": " + value)[..k];
    if k > 0 {
      assert t[1..] == (" " + value)[..k - 1];
      SpaceCut(value, k - 1);
      QuotedCut(text, rest, if k <= 2 then 0 else k - 2);
    }
  }

  /** The key and its quotes, then what follows, cut. */
  lemma {:induction false} KeyCut(key: string, after: string, k: nat)
    requires 0 < k <= |Quoted(key, after)|
    ensures var s, e := Quoted(key, after)[..k], |Escaped(key)|;
            s[0] == '\"' && ReadChars(s[1..]) == if k <= e + 1 then None else Some((key, after[..k - e - 2]))
  {
    var e := |Escaped(key)|;
    var s := Quoted(key, after)[..k];
    if k <= e + 1 {
      assert s[1..] == Escaped(key)[..k - 1];
      EscapedCut(key, k - 1);
    } else {
      var t := after[..k - e - 2];
      QuotedTake(key, after, k - e - 2);
      assert Quoted(key, t)[1..] == Body(key, t);
      BodyRead(key, t);
    }
  }

  lemma MemberCut(key: string, text: string, rest: string, k: nat)
    requires k <= |Quoted(key, ": " + Quoted(text, rest))| - |rest| - 1
    ensures ReadMember(Quoted(key, ": " + Quoted(text, rest))[..k]) == None
  {
    var after := ": " + Quoted(text, rest);
    if k > 0 {
      var e := |Escaped(key)|;
      KeyCut(key, after, k);
      if k > e + 1 {
        ColonCut(text, rest, k - e - 2);
        var t := after[..k - e - 2];
        if t != "" { SkipNone(t); }
      }
    }
  }

  // ----- the part after the cut --------------------------------------------------------------

  predicate Special(c: char) {
    c == '\"' || c == '\\'
  }

  predicate NoSpecial(s: string) {
    forall i :: 0 <= i < |s| ==> !Special(s[i])
  }

  /** Text no array or object can go on with. */
  predicate Stuck(s: string) {
    s == "" || (!IsBlank(s[0]) && s[0] != ':' && s[0] != ',' && s[0] != ']' && s[0] != '}')
  }

  /** A backslash outside a string, or a string that never ends or ends before stuck text. */
  predicate Bad(b: string) {
    && b != ""
    && (b[0] == '\\'
        || (b[0] == '\"' && (ReadChars(b[1..]).None? || Stuck(ReadChars(b[1..]).value.1))))
  }

  /** Plain text and then `b`. */
  predicate Before(s: string, b: string) {
    |b| <= |s| && s[|s| - |b|..] == b && NoSpecial(s[..|s| - |b|])
  }

  lemma Advance(s: string, b: string, n: nat)
    requires Before(s, b) && Bad(b) && n <= |s| && NoSpecial(s[..n])
    ensures n <= |s| - |b| && Before(s[n..], b)
  {
    var k := |s| - |b|;
    assert s[k..][0] == s[k] && Special(s[k]);
    assert forall i :: 0 <= i < n ==> s[..n][i] == s[i];
    assert s[n..][..k - n] == s[n..k];
    assert forall i :: 0 <= i < k - n ==> s[n..k][i] == s[..k][n + i];
    assert s[n..][k - n..] == s[k..];
  }

  lemma {:induction false} SkipStops(s: string, b: string)
    requires Before(s, b) && Bad(b)
    ensures Before(SkipBlanks(s), b)
    decreases |s|
  {
    if s != "" && IsBlank(s[0]) {
      assert NoSpecial(s[..1]);
      Advance(s, b, 1);
      SkipStops(s[1..], b);
    }
  }

  lemma {:induction false} DigitsPlain(s: string)
    ensures NoSpecial(s[..Digits(s)])
  {
    if s != "" && Decimal.IsDigit(s[0]) {
      DigitsPlain(s[1..]);
      assert forall i :: 0 < i < Digits(s) ==> s[..Digits(s)][i] == s[1..][..Digits(s[1..])][i - 1];
    }
  }

  lemma PlainAcross(s: string, i: nat, j: nat)
    requires i <= j <= |s| && NoSpecial(s[..i]) && NoSpecial(s[i..][..j - i])
    ensures NoSpecial(s[..j])
  {
    assert s[..j] == s[..i] + s[i..][..j - i];
  }

  lemma FractionPlain(s: string)
    ensures NoSpecial(s[..FractionLength(s)])
  {
    if FractionLength(s) > 0 {
      DigitsPlain(s[1..]);
      PlainAcross(s, 1, FractionLength(s));
    }
  }

  lemma ExponentPlain(s: string)
    ensures NoSpecial(s[..ExponentLength(s)])
  {
    if ExponentLength(s) > 0 {
      var sign := if |s| > 1 && (s[1] == '+' || s[1] == '-') then 2 else 1;
      DigitsPlain(s[sign..]);
      PlainAcross(s, sign, ExponentLength(s));
    }
  }

  /** The sign and the whole part of a number. */
  lemma WholePlain(s: string, sign: nat, whole: nat)
    requires sign == if s != "" && s[0] == '-' then 1 else 0
    requires whole == if |s| > sign && s[sign] == '0' then 1 else Digits(s[sign..])
    ensures sign + whole <= |s| && NoSpecial(s[..sign + whole])
  {
    if |s| > sign && s[sign] == '0' {
      var head := s[..sign + 1];
      assert forall i :: 0 <= i < |head| ==> !Special(head[i]);
    } else {
      DigitsPlain(s[sign..]);
      PlainAcross(s, sign, sign + whole);
    }
  }

  function SignLength(s: string): nat {
    if s != "" && s[0] == '-' then 1 else 0
  }

  function WholeLength(s: string): nat {
    var sign := SignLength(s);
    if |s| > sign && s[sign] == '0' then 1 else Digits(s[sign..])
  }

  lemma NumberIs(s: string)
    ensures WholeLength(s) == 0 ==> NumberLength(s) == 0
    ensures WholeLength(s) > 0 ==>
              var i := SignLength(s) + WholeLength(s);
              && i <= |s|
              && var j := i + FractionLength(s[i..]);
                 j <= |s| && NumberLength(s) == j + ExponentLength(s[j..])
  {
  }

  lemma {:induction false} NumberPlain(s: string)
    ensures NoSpecial(s[..NumberLength(s)])
  {
    NumberIs(s);
    if WholeLength(s) > 0 {
      WholePlain(s, SignLength(s), WholeLength(s));
      PartsPlain(s, SignLength(s) + WholeLength(s), NumberLength(s));
    } else {
      assert s[..0] == "";
    }
  }

  /** The fraction and the exponent that follow the whole part. */
  lemma PartsPlain(s: string, i: nat, n: nat)
    requires i <= |s| && NoSpecial(s[..i])
    requires var j := i + FractionLength(s[i..]); j <= |s| && n == j + ExponentLength(s[j..])
    ensures n <= |s| && NoSpecial(s[..n])
  {
    var j := i + FractionLength(s[i..]);
    FractionPlain(s[i..]);
    PlainAcross(s, i, j);
    ExponentPlain(s[j..]);
    PlainAcross(s, j, n);
  }

  lemma NamePlain(s: string)
    ensures var r := ReadName(s);
            r.Some? ==> var n := |s| - |r.value.1|;
                        n >= 0 && r.value.1 == s[n..] && NoSpecial(s[..n])
  {
    if "null" <= s {
      PlainPrefix(s, "null");
    } else if "true" <= s {
      PlainPrefix(s, "true");
    } else if "false" <= s {
      PlainPrefix(s, "false");
    } else {
      OddNumberPlain(s);
    }
  }

  lemma OddNumberPlain(s: string)
    requires !("null" <= s) && !("true" <= s) && !("false" <= s)
    ensures var r := ReadName(s);
            r.Some? ==> var n := |s| - |r.value.1|;
                        n >= 0 && r.value.1 == s[n..] && NoSpecial(s[..n])
  {
    OddNames();
    if "NaN" <= s {
      PlainPrefix(s, "NaN");
    } else if "Infinity" <= s {
      PlainPrefix(s, "Infinity");
    } else if "-Infinity" <= s {
      PlainPrefix(s, "-Infinity");
    }
  }

  lemma OddNames()
    ensures NoSpecial("NaN") && NoSpecial("Infinity") && NoSpecial("-Infinity")
  {
  }

  lemma PlainPrefix(s: string, name: string)
    requires name <= s && NoSpecial(name)
    ensures |s| - |s[|name|..]| == |name| && s[..|name|] == name && NoSpecial(s[..|name|])
  {
    assert s[..|name|] == name;
  }

  lemma NameStops(s: string, b: string)
    requires Before(s, b) && Bad(b)
    ensures ReadName(s).Some? ==> Before(ReadName(s).value.1, b)
  {
    NamePlain(s);
    if ReadName(s).Some? {
      Advance(s, b, |s| - |ReadName(s).value.1|);
    }
  }

  /** A member would have to start with a string, and the only one there is bad. */
  lemma MemberStops(s: string, b: string)
    requires Before(s, b) && Bad(b)
    ensures ReadMember(s) == None && ReadMembers(s) == None
  {
    if s != "" && s[0] == '\"' {
      AtBad(s, b);
      var chars := ReadChars(s[1..]);
      if chars.Some? && chars.value.1 != "" {
        SkipNone(chars.value.1);
      }
    }
  }

  lemma AtBad(s: string, b: string)
    requires Before(s, b) && Bad(b) && s != "" && Special(s[0])
    ensures s == b
  {
    if |s| > |b| { FirstPlain(s, b); }
    assert s[0..] == s;
  }

  lemma FirstPlain(s: string, b: string)
    requires Before(s, b) && |s| > |b|
    ensures !Special(s[0])
  {
    assert s[..|s| - |b|][0] == s[0];
  }

  /** Reading a value never gets past the bad part, except to read it as a string and be
      stuck; and an object read before it has no members. */
  ghost predicate StopsAt(r: Option<(Json, string)>, b: string) {
    r.Some? ==>
      && (Before(r.value.1, b) || (Stuck(r.value.1) && r.value.0.String?))
      && (r.value.0.Object? ==> r.value.0.members == [])
  }

  lemma SpecialStops(s: string, b: string)
    requires Before(s, b) && Bad(b) && s != "" && Special(s[0])
    ensures StopsAt(ReadValue(s), b)
  {
    AtBad(s, b);
    NotANumber(s);
  }

  lemma ScalarStops(s: string, b: string)
    requires Before(s, b) && Bad(b) && s != "" && !Special(s[0]) && s[0] != '{' && s[0] != '['
    ensures StopsAt(ReadValue(s), b)
  {
    NumberStops(s, b);
    NameStops(s, b);
  }

  lemma {:induction false} ValueStops(s: string, b: string)
    requires Before(s, b) && Bad(b)
    ensures StopsAt(ReadValue(s), b)
    decreases |s|, 0
  {
    if s == "" {
    } else if Special(s[0]) {
      SpecialStops(s, b);
    } else if s[0] == '{' {
      BracketStops(s, b);
      MemberStops(SkipBlanks(s[1..]), b);
    } else if s[0] == '[' {
      BracketStops(s, b);
      ItemsStop(SkipBlanks(s[1..]), b);
    } else {
      ScalarStops(s, b);
    }
  }

  lemma NumberStops(s: string, b: string)
    requires Before(s, b) && Bad(b)
    ensures Before(s[NumberLength(s)..], b)
  {
    NumberPlain(s);
    Advance(s, b, NumberLength(s));
  }

  lemma BracketStops(s: string, b: string)
    requires Before(s, b) && Bad(b) && s != "" && !Special(s[0])
    ensures var t := SkipBlanks(s[1..]);
            Before(t, b) && (t != "" && !Special(t[0]) ==> Before(t[1..], b))
  {
    assert NoSpecial(s[..1]);
    Advance(s, b, 1);
    SkipStops(s[1..], b);
    var t := SkipBlanks(s[1..]);
    if t != "" && !Special(t[0]) {
      assert NoSpecial(t[..1]);
      Advance(t, b, 1);
    }
  }

  lemma NotANumber(s: string)
    requires s != "" && Special(s[0])
    ensures NumberLength(s) == 0 && ReadName(s) == None
  {
  }

  lemma ItemStops(s: string, b: string) returns (t: string)
    requires Before(s, b) && Bad(b) && ReadItems(s).Some?
    ensures ReadValue(s).Some? && t == SkipBlanks(ReadValue(s).value.1) && Before(t, b)
    ensures t != "" && (t[0] == ']' || t[0] == ',') && Before(t[1..], b)
    decreases |s|, 1
  {
    ValueStops(s, b);
    var rest := ReadValue(s).value.1;
    t := SkipBlanks(rest);
    if Before(rest, b) {
      SkipStops(rest, b);
    } else if rest != "" {
      SkipNone(rest);
    }
    assert NoSpecial(t[..1]);
    Advance(t, b, 1);
  }

  lemma {:induction false} ItemsStop(s: string, b: string)
    requires Before(s, b) && Bad(b)
    ensures var r := ReadItems(s); r.Some? ==> Before(r.value.1, b)
    decreases |s|, 2
  {
    if ReadItems(s).Some? {
      var t := ItemStops(s, b);
      if t[0] == ',' {
        SkipStops(t[1..], b);
        ItemsStop(SkipBlanks(t[1..]), b);
      }
    }
  }

  /** Yields no message: it does not parse, or not as an object, or as one with no members. */
  predicate Fruitless(s: string) {
    var v := Loads(s);
    v.None? || !v.value.Object? || v.value.members == []
  }

  lemma BadFruitless(s: string, b: string)
    requires Before(s, b) && Bad(b)
    ensures Fruitless(s)
  {
    SkipStops(s, b);
    ValueStops(SkipBlanks(s), b);
  }

  lemma {:induction false} SkipPlain(s: string)
    requires NoSpecial(s)
    ensures NoSpecial(SkipBlanks(s))
  {
    if s != "" && IsBlank(s[0]) { SkipPlain(s[1..]); }
  }

  /** Without a quote there are no members. */
  lemma PlainFruitless(s: string)
    requires NoSpecial(s)
    ensures Fruitless(s)
  {
    SkipPlain(s);
    var t := SkipBlanks(s);
    if t != "" {
      SkipPlain(t[1..]);
      assert ReadMembers(SkipBlanks(t[1..])) == None;
    }
  }

  /** What may follow a printed string: the end of its object, or the next key. */
  predicate Jammed(after: string) {
    after == "}" || (|after| > 3 && after[..3] == ", \"" && Stuck(after[3..]) && !Special(after[3]) && after[3] >= ' ')
  }

  lemma ReadCommaSpace(r: string)
    ensures ReadChars([','] + ([' '] + (['\"'] + r))) == Some((", ", r))
  {
    var a, b := [' '] + (['\"'] + r), ['\"'] + r;
    assert b[1..] == r && ReadChars(b) == Some(("", r));
    assert a[1..] == b && ReadChars(a) == Some(([' '] + "", r));
    assert ([','] + a)[1..] == a;
    assert [','] + ([' '] + "") == ", ";
  }

  lemma ReadNoQuote(t: string)
    requires t == "" || t == "}" || t == [','] || t == [',', ' ']
    ensures ReadChars(t) == None
  {
    if t == "}" || t == [','] {
      assert t[1..] == "";
    } else if t == [',', ' '] {
      assert t[1..] == [' '] && [' '][1..] == "";
    }
  }

  lemma JammedBad(after: string, j: nat)
    requires Jammed(after) && j <= |after|
    ensures Bad("\"" + after[..j])
  {
    var b, t := "\"" + after[..j], after[..j];
    assert b[1..] == t;
    if after == "}" || j <= 2 {
      assert j == 1 && after != "}" ==> t == [after[..3][0]];
      assert j == 2 && after != "}" ==> t == [after[..3][0], after[..3][1]];
      ReadNoQuote(t);
    } else {
      var r := after[3..j];
      assert after == after[..3] + after[3..];
      assert t == [','] + ([' '] + (['\"'] + r));
      ReadCommaSpace(r);
      assert j > 3 ==> r[0] == after[3..][0];
    }
  }

  /** Begun anywhere between two characters of a printed string and cut anywhere, the line
      yields no message. */
  lemma {:induction false} BodyFruitless(text: string, after: string, j: nat) returns (q: nat)
    requires Jammed(after) && j <= |Body(text, after)|
    ensures q <= j && NoSpecial(Body(text, after)[..j][..q])
    ensures q < j ==> Bad(Body(text, after)[..j][q..])
  {
    q := 0;
    if j > 0 && text == "" {
      EmptyBad(after, j);
    } else if j > 0 && Escape(text[0])[0] == '\\' {
      BackslashBad(text, after, j);
    } else if j > 0 && Escape(text[0])[0] != '\\' {
      var more := BodyFruitless(text[1..], after, j - 1);
      q := more + 1;
      RawStep(text, after, j, more);
    }
  }

  lemma EmptyBad(after: string, j: nat)
    requires Jammed(after) && 0 < j <= |Body("", after)|
    ensures Bad(Body("", after)[..j][0..])
  {
    var p := Body("", after)[..j];
    assert p == "\"" + after[..j - 1] && p[0..] == p;
    JammedBad(after, j - 1);
  }

  lemma BackslashBad(text: string, after: string, j: nat)
    requires text != "" && Escape(text[0])[0] == '\\' && 0 < j <= |Body(text, after)|
    ensures Bad(Body(text, after)[..j][0..])
  {
    BodyCons(text, after);
    var p := Body(text, after)[..j];
    assert p[0..] == p && p[0] == Escape(text[0])[0];
  }

  lemma PrefixPlain(c: char, rest: string, more: nat)
    requires !Special(c) && more <= |rest| && NoSpecial(rest[..more])
    ensures NoSpecial(([c] + rest)[..more + 1]) && ([c] + rest)[more + 1..] == rest[more..]
  {
    assert ([c] + rest)[..more + 1] == [c] + rest[..more];
  }

  /** One character that stands for itself, before the rest. */
  lemma RawStep(text: string, after: string, j: nat, more: nat)
    requires text != "" && Escape(text[0])[0] != '\\'
    requires 0 < j <= |Body(text, after)| && more <= j - 1
    requires NoSpecial(Body(text[1..], after)[..j - 1][..more])
    ensures |Body(text, after)| == |Body(text[1..], after)| + 1
    ensures NoSpecial(Body(text, after)[..j][..more + 1])
    ensures Body(text, after)[..j][more + 1..] == Body(text[1..], after)[..j - 1][more..]
  {
    EscapeRead(text[0], "");
    var rest := Body(text[1..], after);
    BodyCons(text, after);
    assert Body(text, after)[..j] == [text[0]] + rest[..j - 1];
    PrefixPlain(text[0], rest[..j - 1], more);
  }

  lemma CutBodyFruitless(text: string, after: string, j: nat)
    requires Jammed(after) && j <= |Body(text, after)|
    ensures Fruitless(Body(text, after)[..j])
  {
    var p := Body(text, after)[..j];
    var q := BodyFruitless(text, after, j);
    if q < j {
      assert |p| - |p[q..]| == q;
      BadFruitless(p, p[q..]);
    } else {
      assert p[..q] == p;
      PlainFruitless(p);
    }
  }
}
