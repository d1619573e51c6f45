// Printing messages and parsing them back is the identity exactly when no field holds one of
// the three line separators that str.splitlines breaks on and json.dumps leaves as they are.
module RoundTripExactly {
  import opened Text
  import opened Json
  import opened JsonCuts
  import opened Transcript
  import opened RoundTrip

  /** NEL, LINE SEPARATOR, PARAGRAPH SEPARATOR */
  predicate Separates(c: char) {
    c == '\U{85}' || c == '\U{2028}' || c == '\U{2029}'
  }

  predicate Clean(s: string) {
    forall i :: 0 <= i < |s| ==> !Separates(s[i])
  }

  predicate CleanFields(fields: Fields) {
    forall i :: 0 <= i < |fields| ==> Clean(fields[i].1)
  }

  predicate CleanMessage(m: Said) {
    Clean(m.role) && Clean(m.content) && (m.timestamp.Some? ==> Clean(m.timestamp.value))
  }

  // ----- breaks inside a printed line ----------------------------------------------------------

  lemma EscapeBreaks(c: char)
    ensures Separates(c) ==> Escape(c) == [c]
    ensures !Separates(c) ==> Unbroken(Escape(c))
    ensures Unbroken(Escape(c)) || Escape(c) == [c]
  {
    if c < ' ' {
      var n := c as nat;
      assert !IsBreak(HexDigit(n / 16)) && !IsBreak(HexDigit(n % 16));
      assert !IsBreak('\\') && !IsBreak('u') && !IsBreak('0');
      assert !IsBreak('n') && !IsBreak('r') && !IsBreak('t') && !IsBreak('b') && !IsBreak('f');
    }
  }

  lemma {:induction false} EscapedUnbroken(s: string)
    ensures Unbroken(Escaped(s)) <==> Clean(s)
  {
    if s != "" {
      var rest := Escaped(s[1..]);
      EscapeBreaks(s[0]);
      EscapedUnbroken(s[1..]);
      UnbrokenAppend(Escape(s[0]), rest);
      assert s == [s[0]] + s[1..];
      assert Unbroken([s[0]]) ==> !IsBreak([s[0]][0]);
    }
  }

  lemma UnbrokenAppend(a: string, b: string)
    ensures Unbroken(a + b) <==> Unbroken(a) && Unbroken(b)
  {
    if Unbroken(a + b) {
      assert forall i :: 0 <= i < |a| ==> a[i] == (a + b)[i];
      assert forall i :: 0 <= i < |b| ==> b[i] == (a + b)[|a| + i];
    }
  }

  lemma QuotedUnbroken(s: string, rest: string)
    ensures Unbroken(Quoted(s, rest)) <==> Clean(s) && Unbroken(rest)
  {
    EscapedUnbroken(s);
    UnbrokenAppend("\"", Body(s, rest));
    UnbrokenAppend(Escaped(s), "\"" + rest);
    UnbrokenAppend("\"", rest);
  }

  lemma FieldUnbroken(key: string, text: string, rest: string)
    requires Clean(key)
    ensures Unbroken(Quoted(key, ": " + Quoted(text, rest))) <==> Clean(text) && Unbroken(rest)
  {
    QuotedUnbroken(text, rest);
    UnbrokenAppend(": ", Quoted(text, rest));
    QuotedUnbroken(key, ": " + Quoted(text, rest));
  }

  /** Keys are plain letters. */
  predicate PlainKey(key: string) {
    key == "role" || key == "content" || key == "timestamp" || key == "prompt" || key == "response"
  }

  lemma KeyClean(key: string)
    requires PlainKey(key)
    ensures Clean(key)
  {
  }

  predicate PlainKeys(fields: Fields) {
    forall i :: 0 <= i < |fields| ==> PlainKey(fields[i].0)
  }

  lemma RestUnbroken(more: string, last: bool)
    ensures Unbroken(if last then "}" else ", " + more) <==> last || Unbroken(more)
  {
    UnbrokenAppend(", ", more);
    assert Unbroken("}") && Unbroken(", ");
  }

  lemma {:induction false} FieldsUnbroken(fields: Fields)
    requires PlainKeys(fields) && fields != []
    ensures Unbroken(PrintedFields(fields)) <==> CleanFields(fields)
    decreases |fields|
  {
    var more := PrintedFields(fields[1..]);
    var rest := if |fields| == 1 then "}" else ", " + more;
    if |fields| > 1 { FieldsUnbroken(fields[1..]); }
    RestUnbroken(more, |fields| == 1);
    KeyClean(fields[0].0);
    FieldUnbroken(fields[0].0, fields[0].1, rest);
    CleanCons(fields);
  }

  lemma CleanCons(fields: Fields)
    requires fields != []
    ensures CleanFields(fields) <==> Clean(fields[0].1) && CleanFields(fields[1..])
  {
    assert fields == [fields[0]] + fields[1..];
  }

  lemma ObjectUnbroken(fields: Fields)
    requires PlainKeys(fields) && fields != []
    ensures Unbroken(PrintedObject(fields)) <==> CleanFields(fields)
  {
    FieldsUnbroken(fields);
    UnbrokenAppend("{", PrintedFields(fields));
  }

  lemma LineUnbroken(m: Said)
    ensures Unbroken(PrintedLine(m)) <==> CleanMessage(m)
  {
    ObjectUnbroken(FieldsOf(m));
    CleanFieldsOf(m);
  }

  lemma CleanFieldsOf(m: Said)
    ensures CleanFields(FieldsOf(m)) <==> CleanMessage(m)
  {
    var fields := FieldsOf(m);
    assert fields[0].1 == m.role && fields[1].1 == m.content;
    assert m.timestamp.Some? ==> fields[2].1 == m.timestamp.value;
  }

  // ----- what a break leaves -------------------------------------------------------------------

  /** The rest of a printed string, and what follows it. */
  ghost predicate Inside(s: string) {
    exists text, after :: InsideAs(s, text, after)
  }

  ghost predicate InsideAs(s: string, text: string, after: string) {
    s == Body(text, after) && Jammed(after)
  }

  /** Every break of the text is one character, inside a printed string. */
  ghost predicate BreaksInside(s: string) {
    forall n :: 0 <= n < |s| && IsBreak(s[n]) ==> BreakInside(s, n)
  }

  ghost predicate BreakInside(s: string, n: nat)
    requires n < |s|
  {
    s[n] != '\r' && Inside(s[n + 1..])
  }

  lemma UnbrokenThen(a: string, s: string)
    requires Unbroken(a) && BreaksInside(s)
    ensures BreaksInside(a + s)
  {
    assert forall n :: 0 <= n < |a| ==> (a + s)[n] == a[n];
    forall n | |a| <= n < |a + s| && IsBreak((a + s)[n]) ensures BreakInside(a + s, n) {
      assert BreakInside(s, n - |a|) && (a + s)[n + 1..] == s[n - |a| + 1..];
    }
  }

  lemma BreaksRest(s: string, k: nat)
    requires BreaksInside(s) && k <= |s|
    ensures BreaksInside(s[k..])
  {
    forall n | 0 <= n < |s[k..]| && IsBreak(s[k..][n]) ensures BreakInside(s[k..], n) {
      assert s[k..][n] == s[k + n];
      assert BreakInside(s, k + n) && s[k..][n + 1..] == s[k + n + 1..];
    }
  }

  lemma {:induction false} BodyBreaks(text: string, after: string)
    requires Jammed(after) && BreaksInside(after)
    ensures BreaksInside(Body(text, after))
  {
    if text == "" {
      assert Body(text, after) == "\"" + after;
      UnbrokenThen("\"", after);
    } else {
      var e, rest := Escape(text[0]), Body(text[1..], after);
      BodyBreaks(text[1..], after);
      EscapeBreaks(text[0]);
      BodyCons(text, after);
      if Unbroken(e) {
        UnbrokenThen(e, rest);
      } else {
        RawBreak(text[0], text[1..], after);
      }
    }
  }

  lemma RawBreak(c: char, text: string, after: string)
    requires Escape(c) == [c] && Jammed(after) && BreaksInside(Body(text, after))
    ensures BreaksInside([c] + Body(text, after))
  {
    var rest := Body(text, after);
    var s := [c] + rest;
    EscapeRead(c, "");
    assert InsideAs(rest, text, after);
    forall n | 0 <= n < |s| && IsBreak(s[n]) ensures BreakInside(s, n) {
      assert n == 0 ==> s[1..] == rest;
      assert n > 0 ==> BreakInside(rest, n - 1) && s[n + 1..] == rest[n..];
    }
  }

  lemma FieldBreaks(key: string, text: string, rest: string)
    requires PlainKey(key) && Jammed(rest) && BreaksInside(rest)
    ensures BreaksInside(Quoted(key, ": " + Quoted(text, rest)))
    ensures Jammed(", " + Quoted(key, ": " + Quoted(text, rest)))
  {
    var value := Body(text, rest);
    BodyBreaks(text, rest);
    KeyBreaks(key, value);
    assert ": " + Quoted(text, rest) == ": \"" + value;
  }

  lemma {:induction false} FieldsBreaks(fields: Fields)
    requires PlainKeys(fields) && fields != []
    ensures BreaksInside(PrintedFields(fields))
    ensures Jammed(", " + PrintedFields(fields))
    decreases |fields|
  {
    var rest := if |fields| == 1 then "}" else ", " + PrintedFields(fields[1..]);
    if |fields| > 1 {
      FieldsBreaks(fields[1..]);
      UnbrokenThen(", ", PrintedFields(fields[1..]));
    }
    FieldBreaks(fields[0].0, fields[0].1, rest);
  }

  lemma {:induction false} KeyLead(key: string)
    requires PlainKey(key)
    ensures Unbroken("\"" + Escaped(key) + "\": \"")
  {
    KeyClean(key);
    EscapedUnbroken(key);
    UnbrokenAppend("\"", Escaped(key));
    UnbrokenAppend("\"" + Escaped(key), "\": \"");
  }

  lemma {:induction false} KeyJams(key: string, value: string)
    requires PlainKey(key)
    ensures Jammed(", " + Quoted(key, ": \"" + value))
  {
    var s := Quoted(key, ": \"" + value);
    assert Escaped(key)[0] == key[0];
    var t := ", " + s;
    assert t[..3] == ", \"" && t[3] == Escaped(key)[0];
  }

  lemma {:induction false} KeyBreaks(key: string, value: string)
    requires PlainKey(key) && BreaksInside(value)
    ensures BreaksInside(Quoted(key, ": \"" + value))
    ensures Jammed(", " + Quoted(key, ": \"" + value))
  {
    var lead := "\"" + Escaped(key) + "\": \"";
    KeyLead(key);
    UnbrokenThen(lead, value);
    assert Quoted(key, ": \"" + value) == lead + value;
    KeyJams(key, value);
  }

  // ----- a broken line yields nothing ------------------------------------------------------------

  predicate NoTurns(r: Turns) {
    r.Ok? ==> r.value == []
  }

  lemma FruitlessLine(line: string, index: nat)
    requires Fruitless(Strip(line))
    ensures NoTurns(LineTurns(line, index))
  {
  }

  lemma InsideStep(s: string)
    requires Inside(s) && s != "" && IsSpace(s[0])
    ensures Inside(s[1..])
  {
    var text, after :| InsideAs(s, text, after);
    FirstSpace(text, after);
    assert InsideAs(s[1..], text[1..], after);
  }

  /** Taking whitespace off the front stays inside the string. */
  lemma {:induction false} InsideStrips(s: string, k: nat)
    requires Inside(s) && k <= |s| && Blank(s[..k])
    ensures Inside(s[k..])
    decreases k
  {
    if k > 0 {
      assert s[..k][0] == s[0];
      InsideStep(s);
      assert s[1..][..k - 1] == s[..k][1..];
      InsideStrips(s[1..], k - 1);
      assert s[1..][k - 1..] == s[k..];
    } else {
      assert s[0..] == s;
    }
  }

  lemma FirstSpace(text: string, after: string)
    requires IsSpace(Body(text, after)[0])
    ensures text != "" && Body(text, after)[1..] == Body(text[1..], after)
  {
    assert !IsSpace('\"') && !IsSpace('\\');
    EmptyBody(after);
    if text != "" {
      EscapeRead(text[0], "");
      BodyCons(text, after);
    }
  }

  lemma EmptyBody(after: string)
    ensures Body("", after)[0] == '\"'
  {
  }

  lemma InsideCut(s: string, j: nat)
    requires Inside(s) && j <= |s|
    ensures Fruitless(s[..j])
  {
    var text, after :| InsideAs(s, text, after);
    CutBodyFruitless(text, after, j);
  }

  lemma SliceOfPrefix(s: string, j: nat, from: nat, to: nat)
    requires from <= to <= j <= |s|
    ensures s[..j][..from] == s[..from] && s[..j][from..to] == s[from..][..to - from]
  {
  }

  lemma InsideSlice(s: string, j: nat, from: nat, to: nat)
    requires from <= to <= j <= |s| && Inside(s[from..])
    ensures Fruitless(s[..j][from..to])
  {
    InsideCut(s[from..], to - from);
    SliceOfPrefix(s, j, from, to);
  }

  lemma InsidePiece(s: string, j: nat, index: nat)
    requires Inside(s) && j <= |s|
    ensures NoTurns(LineTurns(s[..j], index))
  {
    var from, to := StripSpan(s[..j]);
    SliceOfPrefix(s, j, from, to);
    InsideStrips(s, from);
    InsideSlice(s, j, from, to);
    FruitlessLine(s[..j], index);
  }

  lemma NoTurnsCons(line: string, lines: seq<string>, index: nat)
    requires NoTurns(LineTurns(line, index))
    requires NoTurns(LinesTurns(lines, NextIndex(LineTurns(line, index), index)))
    ensures NoTurns(LinesTurns([line] + lines, index))
  {
    assert ([line] + lines)[1..] == lines;
  }

  /** A text whose first piece yields nothing and is followed by the inside of a string. */
  lemma BrokenLines(s: string, index: nat)
    requires BreaksInside(s) && s != "" && NoTurns(LineTurns(s[..LineLength(s)], index))
    ensures NoTurns(LinesTurns(SplitLines(s), index))
    decreases |s|, 0
  {
    var n := LineLength(s);
    var next := NextIndex(LineTurns(s[..n], index), index);
    if n < |s| {
      assert BreakInside(s, n);
      assert AfterBreak(s, n) == s[n + 1..];
      BreaksRest(s, n + 1);
      InsideLines(s[n + 1..], next);
      NoTurnsCons(s[..n], SplitLines(s[n + 1..]), index);
    } else {
      NoTurnsCons(s[..n], [], index);
    }
  }

  lemma {:induction false} InsideLines(s: string, index: nat)
    requires Inside(s) && BreaksInside(s)
    ensures NoTurns(LinesTurns(SplitLines(s), index))
    decreases |s|, 1
  {
    if s != "" {
      InsidePiece(s, LineLength(s), index);
      BrokenLines(s, index);
    }
  }

  /** What may follow the first member, cut: it neither ends the object nor goes on to
      another member. */
  ghost predicate Halted(rest: string) {
    var t := SkipBlanks(rest);
    t == "" || (t[0] == ',' && ReadMembers(SkipBlanks(t[1..])) == None)
  }

  lemma {:induction false} FieldsCut(fields: Fields, k: nat)
    requires fields != [] && k < |PrintedFields(fields)|
    ensures ReadMembers(PrintedFields(fields)[..k]) == None
    decreases |fields|
  {
    var rest := if |fields| == 1 then "}" else ", " + PrintedFields(fields[1..]);
    var lead := |PrintedFields(fields)| - |rest|;
    if k < lead {
      MemberCut(fields[0].0, fields[0].1, rest, k);
    } else {
      if |fields| == 1 {
        assert rest[..k - lead] == "" && SkipBlanks("") == "";
      } else {
        if k - lead >= 2 { FieldsCut(fields[1..], k - lead - 2); }
        RestCut(PrintedFields(fields[1..]), k - lead);
      }
      HaltedCut(fields[0].0, fields[0].1, rest, k);
    }
  }

  lemma HaltedCut(key: string, text: string, rest: string, k: nat)
    requires var s := Quoted(key, ": " + Quoted(text, rest));
             |s| - |rest| <= k <= |s| && Halted(rest[..k - (|s| - |rest|)])
    ensures ReadMembers(Quoted(key, ": " + Quoted(text, rest))[..k]) == None
  {
    var s := Quoted(key, ": " + Quoted(text, rest));
    var left := rest[..k - (|s| - |rest|)];
    CutAfterMember(key, text, rest, k);
    HaltedRead(key, text, left);
  }

  lemma HaltedRead(key: string, text: string, left: string)
    requires Halted(left)
    ensures ReadMembers(Quoted(key, ": " + Quoted(text, left))) == None
  {
    MemberRead(key, text, left);
  }

  lemma CutAfterMember(key: string, text: string, rest: string, k: nat)
    requires var s := Quoted(key, ": " + Quoted(text, rest)); |s| - |rest| <= k <= |s|
    ensures var s := Quoted(key, ": " + Quoted(text, rest));
            s[..k] == Quoted(key, ": " + Quoted(text, rest[..k - (|s| - |rest|)]))
  {
    var value := Quoted(text, rest);
    var s := Quoted(key, ": " + value);
    var j := k - (|s| - |rest|);
    QuotedTake(text, rest, j);
    var m := |Escaped(text)| + 2 + j;
    assert (": " + value)[..2 + m] == ": " + value[..m];
    QuotedTake(key, ": " + value, 2 + m);
  }

  lemma RestCut(more: string, k: nat)
    requires more != "" && !IsBlank(more[0]) && k < |", " + more|
    requires k >= 2 ==> ReadMembers(more[..k - 2]) == None
    ensures Halted((", " + more)[..k])
  {
    var t := (", " + more)[..k];
    if k == 0 {
      assert t == "";
    } else if k == 1 {
      assert t == ",";
      CommaHalts("");
    } else if k == 2 {
      assert t == ", ";
      CommaHalts(" ");
    } else {
      assert t == "," + (" " + more[..k - 2]);
      SkipNone(more[..k - 2]);
      CommaHalts(" " + more[..k - 2]);
    }
  }

  lemma CommaHalts(after: string)
    requires SkipBlanks(after) == "" || ReadMembers(SkipBlanks(after)) == None
    ensures Halted("," + after)
  {
    SkipNone("," + after);
    assert ("," + after)[1..] == after;
  }

  /** A line cut anywhere before its end does not parse. */
  lemma LineCut(fields: Fields, k: nat)
    requires fields != [] && k < |PrintedObject(fields)|
    ensures Loads(PrintedObject(fields)[..k]) == None
  {
    if k > 0 {
      FieldsCut(fields, k - 1);
      assert PrintedObject(fields)[..k] == "{" + PrintedFields(fields)[..k - 1];
      BraceCut(PrintedFields(fields)[..k - 1]);
    }
  }

  lemma BraceCut(t: string)
    requires ReadMembers(t) == None && (t != "" ==> t[0] == '\"')
    ensures Loads("{" + t) == None
  {
    var p := "{" + t;
    SkipNone(p);
    assert p[1..] == t;
    if t != "" { SkipNone(t); }
  }

  /** A piece that begins with a character of its own is stripped at its end alone. */
  lemma {:induction false} StripsAtEnd(s: string, n: nat) returns (to: nat)
    requires 0 < n <= |s| && !IsSpace(s[0])
    ensures to <= n && Strip(s[..n]) == s[..to]
  {
    var from, end := StripSpan(s[..n]);
    assert from == 0;
    to := end;
  }

  lemma {:induction false} FirstPiece(fields: Fields, n: nat, index: nat)
    requires fields != [] && n < |PrintedObject(fields)|
    ensures NoTurns(LineTurns(PrintedObject(fields)[..n], index))
  {
    var s := PrintedObject(fields);
    if n > 0 {
      assert s[0] == '{' && !IsSpace('{');
      var to := StripsAtEnd(s, n);
      LineCut(fields, to);
    }
    FruitlessLine(s[..n], index);
  }

  lemma LineBreaks(fields: Fields)
    requires PlainKeys(fields) && fields != []
    ensures BreaksInside(PrintedObject(fields))
  {
    FieldsBreaks(fields);
    UnbrokenThen("{", PrintedFields(fields));
  }

  /** An object with a separator in a field comes back as nothing. */
  lemma BrokenObject(fields: Fields, index: nat)
    requires PlainKeys(fields) && fields != [] && !CleanFields(fields)
    ensures NoTurns(LinesTurns(SplitLines(PrintedObject(fields)), index))
  {
    var s := PrintedObject(fields);
    ObjectUnbroken(fields);
    LineBreaks(fields);
    assert LineLength(s) < |s|;
    FirstPiece(fields, LineLength(s), index);
    BrokenLines(s, index);
  }

  /** A message with a separator in it comes back as no message at all. */
  lemma BrokenYieldsNothing(m: Said, index: nat)
    requires !CleanMessage(m)
    ensures NoTurns(LinesTurns(SplitLines(PrintedLine(m)), index))
  {
    CleanFieldsOf(m);
    BrokenObject(FieldsOf(m), index);
  }

  lemma CleanYieldsItself(m: Said, index: nat)
    requires CleanMessage(m)
    ensures LinesTurns(SplitLines(PrintedLine(m)), index) == Ok([Heard(m, index)])
  {
    LineUnbroken(m);
    LineBraced(m);
    SplitWhole(PrintedLine(m));
    LineHeard(m, index);
    var lines := [PrintedLine(m)];
    assert lines[1..] == [];
    assert [Heard(m, index)] + [] == [Heard(m, index)];
  }

  // ----- whole transcripts -----------------------------------------------------------------------

  predicate AllClean(ms: seq<Said>) {
    forall i :: 0 <= i < |ms| ==> CleanMessage(ms[i])
  }

  lemma {:induction false} CleanReadsBack(ms: seq<Said>, index: nat)
    requires AllClean(ms)
    ensures LinesTurns(LinesOf(ms), index) == Ok(AllHeard(ms, index))
    decreases |ms|
  {
    if ms != [] {
      CleanYieldsItself(ms[0], index);
      CleanReadsBack(ms[1..], index + 1);
      TurnsAppend(SplitLines(PrintedLine(ms[0])), LinesOf(ms[1..]), index);
    }
  }

  lemma MessageTurns(m: Said, index: nat)
    ensures var r := LinesTurns(SplitLines(PrintedLine(m)), index);
            r.Ok? ==> |r.value| == if CleanMessage(m) then 1 else 0
  {
    if CleanMessage(m) {
      CleanYieldsItself(m, index);
    } else {
      BrokenYieldsNothing(m, index);
    }
  }

  function CleanCount(ms: seq<Said>): (n: nat)
    ensures n <= |ms| && (n == |ms| <==> AllClean(ms))
  {
    if ms == [] then 0
    else
      assert AllClean(ms) <==> CleanMessage(ms[0]) && AllClean(ms[1..]);
      (if CleanMessage(ms[0]) then 1 else 0) + CleanCount(ms[1..])
  }

  /** As many turns as there are messages without a separator. */
  lemma {:induction false} TurnsFromMessages(ms: seq<Said>, index: nat)
    ensures var r := LinesTurns(LinesOf(ms), index); r.Ok? ==> |r.value| == CleanCount(ms)
    decreases |ms|
  {
    if ms != [] {
      var lines := SplitLines(PrintedLine(ms[0]));
      MessageTurns(ms[0], index);
      TurnsFromMessages(ms[1..], NextIndex(LinesTurns(lines, index), index));
      TurnsAppend(lines, LinesOf(ms[1..]), index);
    }
  }

  lemma {:induction false} AllHeardLength(ms: seq<Said>, index: nat)
    ensures |AllHeard(ms, index)| == |ms|
  {
    if ms != [] { AllHeardLength(ms[1..], index + 1); }
  }

  /** The printed transcript parses back to the messages, each at its own position, if and
      only if none of them holds a separator. */
  lemma ReadsBackExactly(ms: seq<Said>)
    ensures Parsed(Printed(ms)) == Ok(AllHeard(ms, 0)) <==> AllClean(ms)
  {
    ParsedIs(ms);
    if AllClean(ms) {
      CleanReadsBack(ms, 0);
    } else {
      TurnsFromMessages(ms, 0);
      AllHeardLength(ms, 0);
    }
  }

  /** One message whose content is a single LINE SEPARATOR is not read back. */
  lemma SeparatorLosesMessage()
    ensures var ms := [Said("user", "\U{2028}", None)]; Parsed(Printed(ms)) != Ok(AllHeard(ms, 0))
  {
    var ms := [Said("user", "\U{2028}", None)];
    assert Separates(ms[0].content[0]);
    assert !CleanMessage(ms[0]);
    ReadsBackExactly(ms);
  }
}
