// Transcripts of prompts and responses, mixed with single messages and with the keys of each
// line in any order: what parsing gives back, and exactly when.
module Exchanges {
  import opened Text
  import opened Json
  import opened Transcript
  import opened RoundTrip
  import opened RoundTripExactly

  /** One line as a caller states it: a prompt with what came back, or one message. */
  datatype Entry =
    | Exchange(prompt: string, asker: Option<string>, response: Option<string>, timestamp: Option<string>)
    | Single(said: Said)

  function Maybe(key: string, text: Option<string>): Fields {
    if text.Some? then [(key, text.value)] else []
  }

  function EntryFields(e: Entry): Fields {
    match e
    case Exchange(prompt, asker, response, timestamp) =>
      [("prompt", prompt)] + Maybe("role", asker) + Maybe("response", response) + Maybe("timestamp", timestamp)
    case Single(said) => FieldsOf(said)
  }

  predicate DistinctKeys(fields: Fields) {
    forall i, j :: 0 <= i < j < |fields| ==> fields[i].0 != fields[j].0
  }

  /** The line's fields are the entry's, each once, in some order. */
  ghost predicate Spells(fields: Fields, e: Entry) {
    DistinctKeys(fields) && forall f :: f in fields <==> f in EntryFields(e)
  }

  /** The turns the entry stands for: a prompt is the user's unless it says whose it is, a
      response is the assistant's, and both are of the same time. */
  function EntryTurns(e: Entry, index: nat): seq<Message> {
    match e
    case Exchange(prompt, asker, response, timestamp) =>
      var time := if timestamp.Some? then String(timestamp.value) else Null;
      var asked := Message(String(if asker.Some? then asker.value else "user"), String(prompt), time, index);
      if response.None? then [asked]
      else [asked, Message(String("assistant"), String(response.value), time, index + 1)]
    case Single(said) => [Heard(said, index)]
  }

  function AllTurns(es: seq<Entry>, index: nat): seq<Message> {
    if es == [] then [] else EntryTurns(es[0], index) + AllTurns(es[1..], index + |EntryTurns(es[0], index)|)
  }

  // ----- fields by their keys ---------------------------------------------------------------------

  lemma {:induction false} StringMembersAt(fields: Fields)
    ensures |StringMembers(fields)| == |fields|
    ensures forall i :: 0 <= i < |fields| ==> StringMembers(fields)[i] == (fields[i].0, String(fields[i].1))
  {
    if fields != [] { StringMembersAt(fields[1..]); }
  }

  /** The member of a key, when no two have it. */
  lemma {:induction false} GetOnly(members: seq<(string, Json)>, i: nat)
    requires i < |members| && forall j :: 0 <= j < |members| && j != i ==> members[j].0 != members[i].0
    ensures Get(members, members[i].0) == Some(members[i].1)
    decreases |members|
  {
    if i < |members| - 1 { GetOnly(members[..|members| - 1], i); }
  }

  lemma {:induction false} GetMissing(members: seq<(string, Json)>, key: string)
    requires forall j :: 0 <= j < |members| ==> members[j].0 != key
    ensures Get(members, key) == None
    decreases |members|
  {
    if members != [] { GetMissing(members[..|members| - 1], key); }
  }

  lemma GetField(fields: Fields, key: string, text: string)
    requires DistinctKeys(fields) && (key, text) in fields
    ensures Get(StringMembers(fields), key) == Some(String(text))
  {
    StringMembersAt(fields);
    var i :| 0 <= i < |fields| && fields[i] == (key, text);
    GetOnly(StringMembers(fields), i);
  }

  lemma GetNoField(fields: Fields, key: string)
    requires forall text :: (key, text) !in fields
    ensures Get(StringMembers(fields), key) == None
  {
    StringMembersAt(fields);
    assert forall i :: 0 <= i < |fields| ==> fields[i] == (fields[i].0, fields[i].1) && fields[i] in fields;
    GetMissing(StringMembers(fields), key);
  }

  lemma MaybeHolds(key: string, text: Option<string>, f: (string, string))
    ensures f in Maybe(key, text) <==> text.Some? && f == (key, text.value)
  {
  }

  /** The entry has this text under the key, or nothing. */
  ghost predicate States(e: Entry, key: string, text: Option<string>) {
    forall t :: (key, t) in EntryFields(e) <==> text == Some(t)
  }

  /** A line that spells the entry gives under each key what the entry states. */
  lemma GetStated(fields: Fields, e: Entry, key: string, text: Option<string>)
    requires Spells(fields, e) && States(e, key, text)
    ensures Get(StringMembers(fields), key) == if text.Some? then Some(String(text.value)) else None
  {
    if text.Some? { GetField(fields, key, text.value); } else { GetNoField(fields, key); }
  }

  lemma ExchangeStates(e: Entry)
    requires e.Exchange?
    ensures States(e, "prompt", Some(e.prompt)) && States(e, "role", e.asker)
    ensures States(e, "response", e.response) && States(e, "timestamp", e.timestamp)
  {
    forall key, t ensures (key, t) in EntryFields(e) <==>
              || (key == "prompt" && t == e.prompt) || (key == "role" && e.asker == Some(t))
              || (key == "response" && e.response == Some(t)) || (key == "timestamp" && e.timestamp == Some(t))
    {
      ExchangeFields(e, key, t);
    }
  }

  lemma SingleStates(e: Entry)
    requires e.Single?
    ensures States(e, "prompt", None) && States(e, "role", Some(e.said.role))
    ensures States(e, "content", Some(e.said.content)) && States(e, "timestamp", e.said.timestamp)
  {
    forall key, t ensures (key, t) in EntryFields(e) <==>
              || (key == "role" && t == e.said.role) || (key == "content" && t == e.said.content)
              || (key == "timestamp" && e.said.timestamp == Some(t))
    {
      SingleFields(e, key, t);
    }
  }

  lemma ExchangeFields(e: Entry, key: string, t: string)
    requires e.Exchange?
    ensures (key, t) in EntryFields(e) <==>
              || (key == "prompt" && t == e.prompt) || (key == "role" && e.asker == Some(t))
              || (key == "response" && e.response == Some(t)) || (key == "timestamp" && e.timestamp == Some(t))
  {
    MaybeHolds("role", e.asker, (key, t));
    MaybeHolds("response", e.response, (key, t));
    MaybeHolds("timestamp", e.timestamp, (key, t));
  }

  lemma SingleFields(e: Entry, key: string, t: string)
    requires e.Single?
    ensures (key, t) in EntryFields(e) <==>
              || (key == "role" && t == e.said.role) || (key == "content" && t == e.said.content)
              || (key == "timestamp" && e.said.timestamp == Some(t))
  {
  }

  function AsJson(text: Option<string>): Option<Json> {
    if text.Some? then Some(String(text.value)) else None
  }

  lemma ExchangeTurns(members: seq<(string, Json)>, e: Entry, index: nat)
    requires e.Exchange? && Get(members, "prompt") == Some(String(e.prompt)) && Get(members, "role") == AsJson(e.asker)
    requires Get(members, "response") == AsJson(e.response) && Get(members, "timestamp") == AsJson(e.timestamp)
    ensures ObjectTurns(members, index) == EntryTurns(e, index)
  {
  }

  /** However the keys stand, the line gives the entry's turns. */
  lemma ExchangeHeard(fields: Fields, e: Entry, index: nat)
    requires e.Exchange? && Spells(fields, e)
    ensures ObjectTurns(StringMembers(fields), index) == EntryTurns(e, index)
  {
    ExchangeStates(e);
    GetStated(fields, e, "prompt", Some(e.prompt));
    GetStated(fields, e, "role", e.asker);
    GetStated(fields, e, "response", e.response);
    GetStated(fields, e, "timestamp", e.timestamp);
    ExchangeTurns(StringMembers(fields), e, index);
  }

  lemma SingleTurns(members: seq<(string, Json)>, said: Said, index: nat)
    requires Get(members, "prompt") == None && Get(members, "role") == Some(String(said.role))
    requires Get(members, "content") == Some(String(said.content)) && Get(members, "timestamp") == AsJson(said.timestamp)
    ensures ObjectTurns(members, index) == [Heard(said, index)]
  {
  }

  lemma SingleHeard(fields: Fields, e: Entry, index: nat)
    requires e.Single? && Spells(fields, e)
    ensures ObjectTurns(StringMembers(fields), index) == EntryTurns(e, index)
  {
    SingleStates(e);
    GetStated(fields, e, "prompt", None);
    GetStated(fields, e, "role", Some(e.said.role));
    GetStated(fields, e, "content", Some(e.said.content));
    GetStated(fields, e, "timestamp", e.said.timestamp);
    SingleTurns(StringMembers(fields), e.said, index);
  }

  // ----- one line -----------------------------------------------------------------------------------

  predicate CleanEntry(e: Entry) {
    CleanFields(EntryFields(e))
  }

  lemma SpelledKeys(fields: Fields, e: Entry)
    requires Spells(fields, e)
    ensures fields != [] && PlainKeys(fields) && (CleanFields(fields) <==> CleanEntry(e))
  {
    var stated := EntryFields(e);
    assert stated[0] in fields;
    forall i | 0 <= i < |fields| ensures PlainKey(fields[i].0) {
      assert fields[i] in stated && fields[i] == (fields[i].0, fields[i].1);
      if e.Exchange? { ExchangeFields(e, fields[i].0, fields[i].1); } else { SingleFields(e, fields[i].0, fields[i].1); }
    }
    assert forall i :: 0 <= i < |fields| ==> fields[i] in stated;
    assert forall i :: 0 <= i < |stated| ==> stated[i] in fields;
  }

  lemma ObjectHeard(fields: Fields, index: nat)
    requires fields != []
    ensures LineTurns(PrintedObject(fields), index) == Ok(ObjectTurns(StringMembers(fields), index))
  {
    ObjectBraced(fields);
    BracedStrips(PrintedObject(fields));
    PrintedRead(fields);
  }

  lemma SpelledHeard(fields: Fields, e: Entry, index: nat)
    requires Spells(fields, e)
    ensures LineTurns(PrintedObject(fields), index) == Ok(EntryTurns(e, index))
  {
    SpelledKeys(fields, e);
    ObjectHeard(fields, index);
    if e.Exchange? { ExchangeHeard(fields, e, index); } else { SingleHeard(fields, e, index); }
  }

  lemma OneLine(line: string, index: nat)
    ensures LinesTurns([line], index) == LineTurns(line, index)
  {
    var first := LineTurns(line, index);
    assert [line][1..] == [];
    if first.Ok? { assert first.value + [] == first.value; }
  }

  lemma CleanEntryHeard(fields: Fields, e: Entry, index: nat)
    requires Spells(fields, e) && CleanEntry(e)
    ensures LinesTurns(SplitLines(PrintedObject(fields)), index) == Ok(EntryTurns(e, index))
  {
    SpelledKeys(fields, e);
    ObjectUnbroken(fields);
    ObjectBraced(fields);
    SplitWhole(PrintedObject(fields));
    OneLine(PrintedObject(fields), index);
    SpelledHeard(fields, e, index);
  }

  lemma EntryCount(fields: Fields, e: Entry, index: nat)
    requires Spells(fields, e)
    ensures var r := LinesTurns(SplitLines(PrintedObject(fields)), index);
            r.Ok? ==> |r.value| == if CleanEntry(e) then |EntryTurns(e, 0)| else 0
  {
    if CleanEntry(e) {
      CleanEntryHeard(fields, e, index);
    } else {
      SpelledKeys(fields, e);
      BrokenObject(fields, index);
    }
  }

  // ----- whole transcripts ------------------------------------------------------------------------

  function PrintedObjects(lines: seq<Fields>): seq<string> {
    if lines == [] then [] else [PrintedObject(lines[0])] + PrintedObjects(lines[1..])
  }

  lemma {:induction false} PrintedObjectsBraced(lines: seq<Fields>)
    ensures AllBraced(PrintedObjects(lines))
  {
    if lines != [] {
      ObjectBraced(lines[0]);
      PrintedObjectsBraced(lines[1..]);
    }
  }

  ghost predicate AllSpell(lines: seq<Fields>, es: seq<Entry>) {
    |lines| == |es| && forall i :: 0 <= i < |es| ==> Spells(lines[i], es[i])
  }

  predicate AllCleanEntries(es: seq<Entry>) {
    forall i :: 0 <= i < |es| ==> CleanEntry(es[i])
  }

  lemma HeardThen(first: seq<string>, rest: seq<string>, whole: seq<string>, turns: seq<Message>, more: seq<Message>, all: seq<Message>, index: nat)
    requires whole == first + rest && all == turns + more
    requires LinesTurns(first, index) == Ok(turns) && LinesTurns(rest, index + |turns|) == Ok(more)
    ensures LinesTurns(whole, index) == Ok(all)
  {
    TurnsAppend(first, rest, index);
  }

  lemma SpellRest(lines: seq<Fields>, es: seq<Entry>)
    requires AllSpell(lines, es) && es != []
    ensures AllSpell(lines[1..], es[1..]) && Spells(lines[0], es[0])
    ensures PrintedObjects(lines)[1..] == PrintedObjects(lines[1..])
  {
  }

  function Parts(lines: seq<Fields>): seq<seq<string>> {
    if lines == [] then [] else [SplitLines(PrintedObject(lines[0]))] + Parts(lines[1..])
  }

  function Flat(parts: seq<seq<string>>): seq<string> {
    if parts == [] then [] else parts[0] + Flat(parts[1..])
  }

  lemma {:induction false} FlatParts(lines: seq<Fields>)
    ensures Flat(Parts(lines)) == Broken(PrintedObjects(lines)) && |Parts(lines)| == |lines|
    ensures forall i :: 0 <= i < |lines| ==> Parts(lines)[i] == SplitLines(PrintedObject(lines[i]))
  {
    if lines != [] {
      FlatParts(lines[1..]);
      assert PrintedObjects(lines)[1..] == PrintedObjects(lines[1..]) && Parts(lines)[1..] == Parts(lines[1..]);
    }
  }

  /** Wherever these lines stand, they give the entry's turns. */
  ghost predicate Gives(part: seq<string>, e: Entry) {
    forall index {:trigger EntryTurns(e, index)} :: LinesTurns(part, index) == Ok(EntryTurns(e, index))
  }

  lemma {:induction false} PartsHeard(parts: seq<seq<string>>, es: seq<Entry>, index: nat)
    requires |parts| == |es| && forall i :: 0 <= i < |es| ==> Gives(parts[i], es[i])
    ensures LinesTurns(Flat(parts), index) == Ok(AllTurns(es, index))
    decreases |es|
  {
    if es != [] {
      var turns := EntryTurns(es[0], index);
      assert Gives(parts[0], es[0]);
      PartsHeard(parts[1..], es[1..], index + |turns|);
      HeardThen(parts[0], Flat(parts[1..]), Flat(parts), turns, AllTurns(es[1..], index + |turns|), AllTurns(es, index), index);
    }
  }

  lemma EntriesHeard(lines: seq<Fields>, es: seq<Entry>, index: nat)
    requires AllSpell(lines, es) && AllCleanEntries(es)
    ensures LinesTurns(Broken(PrintedObjects(lines)), index) == Ok(AllTurns(es, index))
  {
    FlatParts(lines);
    forall i | 0 <= i < |es| ensures Gives(Parts(lines)[i], es[i]) {
      EntryGives(lines[i], es[i]);
    }
    PartsHeard(Parts(lines), es, index);
  }

  lemma EntryGives(fields: Fields, e: Entry)
    requires Spells(fields, e) && CleanEntry(e)
    ensures Gives(SplitLines(PrintedObject(fields)), e)
  {
    forall index: nat ensures LinesTurns(SplitLines(PrintedObject(fields)), index) == Ok(EntryTurns(e, index)) {
      CleanEntryHeard(fields, e, index);
    }
  }

  /** The turns of the entries that are kept. */
  function KeptTurns(es: seq<Entry>, keep: Entry -> bool): nat {
    if es == [] then 0 else (if keep(es[0]) then Size(es[0]) else 0) + KeptTurns(es[1..], keep)
  }

  function Size(e: Entry): nat {
    |EntryTurns(e, 0)|
  }

  lemma {:induction false} FirstEntry(es: seq<Entry>, index: nat) returns (turns: nat)
    requires es != []
    ensures turns == Size(es[0]) == |EntryTurns(es[0], index)| > 0
    ensures |AllTurns(es, index)| == turns + |AllTurns(es[1..], index + turns)|
  {
    turns := |EntryTurns(es[0], index)|;
  }

  lemma {:induction false} NoMoreKept(es: seq<Entry>, keep: Entry -> bool, index: nat)
    ensures KeptTurns(es, keep) <= |AllTurns(es, index)|
    decreases |es|
  {
    if es != [] {
      var turns := FirstEntry(es, index);
      NoMoreKept(es[1..], keep, index + turns);
    }
  }

  lemma {:induction false} FewerWhenBroken(es: seq<Entry>, keep: Entry -> bool, index: nat, i: nat)
    requires i < |es| && !keep(es[i])
    ensures KeptTurns(es, keep) < |AllTurns(es, index)|
    decreases |es|
  {
    var turns := FirstEntry(es, index);
    NoMoreKept(es[1..], keep, index + turns);
    if i > 0 {
      assert es[i] == es[1..][i - 1];
      FewerWhenBroken(es[1..], keep, index + turns, i - 1);
    }
  }

  lemma {:induction false} EntriesCount(lines: seq<Fields>, es: seq<Entry>, index: nat)
    requires AllSpell(lines, es)
    ensures var r := LinesTurns(Broken(PrintedObjects(lines)), index); r.Ok? ==> |r.value| == KeptTurns(es, CleanEntry)
    decreases |es|
  {
    if es != [] {
      var first := SplitLines(PrintedObject(lines[0]));
      SpellRest(lines, es);
      EntryCount(lines[0], es[0], index);
      EntriesCount(lines[1..], es[1..], NextIndex(LinesTurns(first, index), index));
      TurnsAppend(first, Broken(PrintedObjects(lines[1..])), index);
    }
  }

  /** A transcript of prompts with their responses, and of single messages, in any mixture and
      with the keys of each line in any order, parses to their turns, each at its own
      position, if and only if no field holds a separator. */
  lemma ExchangesReadBackExactly(lines: seq<Fields>, es: seq<Entry>)
    requires AllSpell(lines, es)
    ensures Parsed(JoinWith("\n", PrintedObjects(lines)) + "\n") == Ok(AllTurns(es, 0)) <==> AllCleanEntries(es)
  {
    PrintedObjectsBraced(lines);
    BracedParsed(PrintedObjects(lines));
    if AllCleanEntries(es) {
      EntriesHeard(lines, es, 0);
    } else {
      EntriesCount(lines, es, 0);
      var i :| 0 <= i < |es| && !CleanEntry(es[i]);
      FewerWhenBroken(es, CleanEntry, 0, i);
    }
  }

  /** Such a line there is for every entry: its fields as they are stated. */
  lemma SpellsItself(e: Entry)
    ensures Spells(EntryFields(e), e)
  {
  }

  // ----- lines that give no turn --------------------------------------------------------------------

  /** An object with no prompt, and without both a role and a content, is passed over. */
  lemma UnrecognisedSkipped(fields: Fields, index: nat)
    requires fields != [] && forall t :: ("prompt", t) !in fields
    requires (forall t :: ("role", t) !in fields) || (forall t :: ("content", t) !in fields)
    ensures LineTurns(PrintedObject(fields), index) == Ok([])
  {
    ObjectHeard(fields, index);
    GetNoField(fields, "prompt");
    if forall t :: ("role", t) !in fields { GetNoField(fields, "role"); } else { GetNoField(fields, "content"); }
  }

  /** The line is JSON, and no object. */
  predicate Foreign(line: string) {
    Strip(line) != "" && Loads(Strip(line)).Some? && !Loads(Strip(line)).value.Object?
  }

  lemma LineStops(line: string, index: nat)
    ensures LineTurns(line, index).Err? <==> Foreign(line)
  {
  }

  ghost predicate SomeLine(lines: seq<string>, stops: string -> bool) {
    exists k :: 0 <= k < |lines| && stops(lines[k])
  }

  lemma {:induction false} SomeLineCons(lines: seq<string>, stops: string -> bool)
    requires lines != []
    ensures SomeLine(lines, stops) <==> stops(lines[0]) || SomeLine(lines[1..], stops)
  {
    if SomeLine(lines[1..], stops) {
      var k :| 0 <= k < |lines[1..]| && stops(lines[1..][k]);
      assert lines[k + 1] == lines[1..][k];
    }
    if SomeLine(lines, stops) {
      var k :| 0 <= k < |lines| && stops(lines[k]);
      assert k > 0 ==> lines[1..][k - 1] == lines[k];
    }
  }

  /** A parse fails exactly when some line is JSON but no object; lines that are no JSON are
      passed over. */
  lemma {:induction false} StopsExactly(lines: seq<string>, index: nat)
    ensures LinesTurns(lines, index).Err? <==> SomeLine(lines, Foreign)
    decreases |lines|
  {
    if lines != [] {
      LineStops(lines[0], index);
      SomeLineCons(lines, Foreign);
      StopsExactly(lines[1..], NextIndex(LineTurns(lines[0], index), index));
    }
  }

  /** A line that is JSON but no object: here, a bare string. */
  lemma BareString(text: string, index: nat)
    ensures LineTurns(Quoted(text, ""), index) == Err(NotAnObject)
  {
    var line := Quoted(text, "");
    assert line[0] == '\"' && line[|line| - 1] == '\"';
    assert !IsSpace('\"');
    assert LeftStrip(line) == line && RightStrip(line) == line;
    SkipNone(line);
    ValueRead(text, "");
  }

  /** It stops the whole parse, whatever comes before it without an error and after it. */
  lemma BareStringStops(before: seq<string>, text: string, after: seq<string>, index: nat)
    requires LinesTurns(before, index).Ok?
    ensures LinesTurns(before + ([Quoted(text, "")] + after), index) == Err(NotAnObject)
  {
    var rest := [Quoted(text, "")] + after;
    var next := NextIndex(LinesTurns(before, index), index);
    TurnsAppend(before, rest, index);
    assert rest[1..] == after;
    BareString(text, next);
  }
}
