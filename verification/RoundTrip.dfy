// Exactly which transcripts survive being printed and parsed back.
module RoundTrip {
  import opened Text
  import opened Json
  import opened Transcript

  // ----- a printed line is read back -------------------------------------------------------

  function StringMembers(fields: Fields): seq<(string, Json)> {
    if fields == [] then [] else [(fields[0].0, String(fields[0].1))] + StringMembers(fields[1..])
  }

  lemma LastMemberRead(key: string, text: string)
    ensures ReadMembers(Quoted(key, ": " + Quoted(text, "}"))) == Some(([(key, String(text))], ""))
  {
    MemberRead(key, text, "}");
    SkipNone("}");
    assert "}"[1..] == "";
  }

  lemma {:induction false} NextMemberRead(key: string, text: string, more: string, members: seq<(string, Json)>)
    requires more != "" && !IsBlank(more[0]) && ReadMembers(more) == Some((members, ""))
    ensures ReadMembers(Quoted(key, ": " + Quoted(text, ", " + more))) == Some(([(key, String(text))] + members, ""))
  {
    MemberRead(key, text, ", " + more);
    SkipNone(", " + more);
    assert (", " + more)[1..] == " " + more;
    SkipNone(more);
  }

  lemma {:induction false} FieldsRead(fields: Fields)
    requires fields != []
    ensures ReadMembers(PrintedFields(fields)) == Some((StringMembers(fields), ""))
    decreases |fields|
  {
    var key, text := fields[0].0, fields[0].1;
    if |fields| == 1 {
      LastMemberRead(key, text);
      assert StringMembers(fields[1..]) == [] && StringMembers(fields) == [(key, String(text))];
    } else {
      FieldsRead(fields[1..]);
      NextMemberRead(key, text, PrintedFields(fields[1..]), StringMembers(fields[1..]));
    }
  }

  lemma ObjectRead(t: string, members: seq<(string, Json)>)
    requires t != "" && !IsBlank(t[0]) && t[0] != '}' && ReadMembers(t) == Some((members, ""))
    ensures Loads("{" + t) == Some(Object(members))
  {
    SkipNone("{" + t);
    assert ("{" + t)[1..] == t;
    SkipNone(t);
  }

  /** A printed object is read back with its members. */
  lemma PrintedRead(fields: Fields)
    requires fields != []
    ensures Loads(PrintedObject(fields)) == Some(Object(StringMembers(fields)))
  {
    FieldsRead(fields);
    ObjectRead(PrintedFields(fields), StringMembers(fields));
  }

  /** A printed line is one object with the message's fields. */
  lemma LineRead(m: Said)
    ensures Loads(PrintedLine(m)) == Some(Object(StringMembers(FieldsOf(m))))
  {
    PrintedRead(FieldsOf(m));
  }

  lemma GetLast(members: seq<(string, Json)>, last: (string, Json), key: string)
    ensures Get(members + [last], key) == if last.0 == key then Some(last.1) else Get(members, key)
  {
    assert (members + [last])[..|members|] == members;
  }

  lemma MembersOf(m: Said)
    ensures var said: seq<(string, Json)> := [("role", String(m.role))] + [("content", String(m.content))];
            StringMembers(FieldsOf(m)) == if m.timestamp.Some? then said + [("timestamp", String(m.timestamp.value))] else said
  {
    var fields := FieldsOf(m);
    assert fields[0] == ("role", m.role) && fields[1] == ("content", m.content);
    assert fields[1..][0] == fields[1];
    var rest := fields[1..][1..];
    if m.timestamp.Some? {
      assert rest == [("timestamp", m.timestamp.value)] && rest[1..] == [];
      assert StringMembers(rest) == [("timestamp", String(m.timestamp.value))];
    } else {
      assert StringMembers(rest) == [];
    }
    assert StringMembers(fields[1..]) == [("content", String(m.content))] + StringMembers(rest);
  }

  lemma HeardOf(m: Said, index: nat)
    ensures ObjectTurns(StringMembers(FieldsOf(m)), index) == [Heard(m, index)]
  {
    MembersOf(m);
    var role, content := ("role", String(m.role)), ("content", String(m.content));
    forall key ensures Get([role] + [content], key) ==
                       if key == "content" then Some(content.1) else if key == "role" then Some(role.1) else None
    {
      GetLast([role], content, key);
      GetLast([], role, key);
      assert [] + [role] == [role];
    }
    if m.timestamp.Some? {
      forall key ensures Get([role] + [content] + [("timestamp", String(m.timestamp.value))], key) ==
                         if key == "timestamp" then Some(String(m.timestamp.value)) else Get([role] + [content], key)
      {
        GetLast([role] + [content], ("timestamp", String(m.timestamp.value)), key);
      }
    }
  }

  /** Text from an opening brace to a closing one. */
  predicate Braced(s: string) {
    |s| >= 2 && s[0] == '{' && s[|s| - 1] == '}'
  }

  lemma ObjectBraced(fields: Fields)
    ensures Braced(PrintedObject(fields))
  {
    PrintedEnds(fields);
  }

  lemma LineBraced(m: Said)
    ensures Braced(PrintedLine(m))
  {
    ObjectBraced(FieldsOf(m));
  }

  lemma BracedStrips(s: string)
    requires Braced(s)
    ensures Trimmed(s) && Strip(s) == s
  {
    assert !IsSpace('{') && !IsSpace('}');
    assert LeftStrip(s) == s;
    assert RightStrip(s) == s;
  }

  lemma {:induction false} PrintedEnds(fields: Fields)
    ensures PrintedFields(fields) != "" && PrintedFields(fields)[|PrintedFields(fields)| - 1] == '}'
    decreases |fields|
  {
    if fields != [] { PrintedEnds(fields[1..]); }
  }

  lemma LineHeard(m: Said, index: nat)
    ensures LineTurns(PrintedLine(m), index) == Ok([Heard(m, index)])
  {
    LineBraced(m);
    BracedStrips(PrintedLine(m));
    LineRead(m);
    HeardOf(m, index);
  }

  // ----- the lines of a printed transcript ---------------------------------------------------

  lemma AfterAcross(a: string, b: string, n: nat)
    requires n < |a| && IsBreak(a[n]) && !IsBreak(a[|a| - 1])
    ensures var rest := AfterBreak(a, n);
            && rest != "" && rest[|rest| - 1] == a[|a| - 1]
            && AfterBreak(a + "\n" + b, n) == rest + "\n" + b
  {
    var s := a + "\n" + b;
    assert n + 1 < |a|;
    assert s[n] == a[n] && s[n + 1] == a[n + 1];
    if a[n] == '\r' && a[n + 1] == '\n' {
      assert n + 2 < |a|;
      assert s[n + 2..] == a[n + 2..] + "\n" + b;
    } else {
      assert s[n + 1..] == a[n + 1..] + "\n" + b;
    }
  }

  /** Splitting across a line feed after a text that ends in no break. */
  lemma {:induction false} SplitAcross(a: string, b: string)
    requires a != "" && !IsBreak(a[|a| - 1])
    ensures SplitLines(a + "\n" + b) == SplitLines(a) + SplitLines(b)
    decreases |a|
  {
    var s := a + "\n" + b;
    var n := LineLength(a);
    LengthAcross(a, b);
    assert s[..n] == a[..n];
    if n == |a| {
      assert s[n] == '\n' && s[n + 1..] == b;
    } else {
      AfterAcross(a, b, n);
      var rest := AfterBreak(a, n);
      SplitAcross(rest, b);
      Associate([a[..n]], SplitLines(rest), SplitLines(b));
    }
  }

  lemma {:induction false} LengthAcross(a: string, b: string)
    ensures LineLength(a + "\n" + b) == LineLength(a)
  {
    var s := a + "\n" + b;
    if a == "" {
      assert s[0] == '\n';
    } else {
      assert s[0] == a[0] && s[1..] == a[1..] + "\n" + b;
      LengthAcross(a[1..], b);
    }
  }

  predicate Unbroken(s: string) {
    forall i :: 0 <= i < |s| ==> !IsBreak(s[i])
  }

  lemma {:induction false} SplitWhole(s: string)
    requires s != "" && Unbroken(s)
    ensures SplitLines(s) == [s]
  {
    assert LineLength(s) == |s|;
    assert s[..|s|] == s;
  }

  /** Printed lines may break further. */
  function Broken(lines: seq<string>): seq<string> {
    if lines == [] then [] else SplitLines(lines[0]) + Broken(lines[1..])
  }

  predicate AllBraced(lines: seq<string>) {
    forall i :: 0 <= i < |lines| ==> Braced(lines[i])
  }

  /** The lines of a text of braced lines are those of each, in order. */
  lemma {:induction false} BracedSplits(lines: seq<string>)
    requires lines != [] && AllBraced(lines)
    ensures var joined := JoinWith("\n", lines); SplitLines(joined) == Broken(lines) && Braced(joined)
    decreases |lines|
  {
    if |lines| == 1 {
      assert Broken(lines[1..]) == [];
    } else {
      BracedSplits(lines[1..]);
      LineThenSplits(lines[0], JoinWith("\n", lines[1..]));
    }
  }

  /** The lines of a printed transcript are those of its messages' lines, in order. */
  function LinesOf(ms: seq<Said>): seq<string> {
    if ms == [] then [] else SplitLines(PrintedLine(ms[0])) + LinesOf(ms[1..])
  }

  lemma {:induction false} PrintedBroken(ms: seq<Said>)
    ensures Broken(PrintedLines(ms)) == LinesOf(ms) && AllBraced(PrintedLines(ms)) && |PrintedLines(ms)| == |ms|
  {
    if ms != [] {
      LineBraced(ms[0]);
      PrintedBroken(ms[1..]);
      assert PrintedLines(ms)[1..] == PrintedLines(ms[1..]);
    }
  }

  /** One more line in front. */
  lemma LineThenSplits(line: string, joined: string)
    requires Braced(line) && Braced(joined)
    ensures SplitLines(line + "\n" + joined) == SplitLines(line) + SplitLines(joined)
    ensures Braced(line + "\n" + joined)
  {
    SplitAcross(line, joined);
    BracedAcross(line, joined);
  }

  lemma BracedAcross(a: string, b: string)
    requires Braced(a) && Braced(b)
    ensures Braced(a + "\n" + b)
  {
    var s := a + "\n" + b;
    assert s[0] == a[0] && s[|s| - 1] == b[|b| - 1];
  }

  lemma StripNewline(t: string)
    requires Trimmed(t)
    ensures Strip(t + "\n") == t
  {
    var s := t + "\n";
    assert IsSpace('\n');
    assert LeftStrip(s) == s && s[..|s| - 1] == t;
    assert RightStrip(t) == t;
  }

  /** Parsing braced lines joined with line feeds, with or without a last one. */
  lemma BracedParsed(lines: seq<string>)
    requires AllBraced(lines)
    ensures Parsed(JoinWith("\n", lines) + "\n") == LinesTurns(Broken(lines), 0)
  {
    var joined := JoinWith("\n", lines);
    if lines == [] {
      StripKeepsInk("\n");
      assert joined + "\n" == "\n" && Blank("\n");
    } else {
      BracedSplits(lines);
      BracedStrips(joined);
      StripNewline(joined);
    }
  }

  lemma ParsedIs(ms: seq<Said>)
    ensures Parsed(Printed(ms)) == LinesTurns(LinesOf(ms), 0)
  {
    PrintedBroken(ms);
    BracedParsed(PrintedLines(ms));
  }

  lemma {:induction false} TurnsAppend(a: seq<string>, b: seq<string>, index: nat)
    ensures var first := LinesTurns(a, index);
            LinesTurns(a + b, index) == Then(first, LinesTurns(b, NextIndex(first, index)))
    decreases |a|
  {
    if a == [] {
      assert a + b == b;
      NothingThen(LinesTurns(b, index));
    } else {
      assert (a + b)[0] == a[0] && (a + b)[1..] == a[1..] + b;
      var first := LineTurns(a[0], index);
      var n := NextIndex(first, index);
      var middle := LinesTurns(a[1..], n);
      TurnsAppend(a[1..], b, n);
      ThenAssociates(first, middle, LinesTurns(b, NextIndex(middle, n)));
      assert first.Ok? && middle.Ok? ==> NextIndex(Then(first, middle), index) == NextIndex(middle, n);
    }
  }

  lemma NothingThen(rest: Turns)
    ensures Then(Ok([]), rest) == rest
  {
    if rest.Ok? {
      assert [] + rest.value == rest.value;
    }
  }
}
