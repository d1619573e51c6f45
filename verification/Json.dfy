// JSON text as Python's json module reads it, and strings as it writes them with
// ensure_ascii=False: section 7 of RFC 8259.
module Json {
  import opened Text
  import opened Decimal

  datatype Json =
    | Null
    | Bool(truth: bool)
    | Number(digits: string)
    | String(text: string)
    | Array(items: seq<Json>)
    | Object(members: seq<(string, Json)>)

  // ----- writing a string ---------------------------------------------------------------

  function HexDigit(n: nat): char
    requires n < 16
  {
    if n < 10 then '0' + n as char else 'a' + (n - 10) as char
  }

  function Escape(c: char): (e: string)
    ensures e != ""
  {
    if c == '\"' then "\\\""
    else if c == '\\' then "\\\\"
    else if c == '\n' then "\\n"
    else if c == '\r' then "\\r"
    else if c == '\t' then "\\t"
    else if c == '\U{8}' then "\\b"
    else if c == '\U{C}' then "\\f"
    else if c < ' ' then ['\\', 'u', '0', '0', HexDigit(c as nat / 16), HexDigit(c as nat % 16)]
    else [c]
  }

  function Escaped(s: string): string {
    if s == "" then "" else Escape(s[0]) + Escaped(s[1..])
  }

  /** A string's text, its closing quote, and what follows. */
  function Body(s: string, rest: string): string {
    Escaped(s) + ("\"" + rest)
  }

  /** A quoted string, and what follows. */
  function Quoted(s: string, rest: string): string {
    "\"" + Body(s, rest)
  }

  // ----- reading a string ---------------------------------------------------------------

  function HexValue(c: char): Option<nat> {
    if '0' <= c <= '9' then Some(c as nat - '0' as nat)
    else if 'a' <= c <= 'f' then Some(c as nat - 'a' as nat + 10)
    else if 'A' <= c <= 'F' then Some(c as nat - 'A' as nat + 10)
    else None
  }

  /** Four hexadecimal digits. */
  function Unit(s: string): (u: Option<nat>)
    ensures u.Some? ==> |s| >= 4 && u.value < 0x1_0000
  {
    if |s| < 4 then None
    else
      var a, b, c, d := HexValue(s[0]), HexValue(s[1]), HexValue(s[2]), HexValue(s[3]);
      if a.Some? && b.Some? && c.Some? && d.Some? then
        Some(4096 * a.value + 256 * b.value + 16 * c.value + d.value)
      else None
  }

  const REPLACEMENT: char := '\U{FFFD}'

  /** The character of a \u escape, and what follows it. A surrogate pair is one character; a
      lone surrogate, which no char can hold, stands as U+FFFD. */
  function UnicodeEscape(s: string): (r: Option<(char, string)>)
    ensures r.Some? ==> |r.value.1| < |s|
  {
    var u := Unit(s);
    if u.None? then None
    else
      var rest := s[4..];
      if u.value < 0xD800 || 0xE000 <= u.value then Some((u.value as char, rest))
      else if u.value < 0xDC00 && |rest| >= 2 && rest[0] == '\\' && rest[1] == 'u' then
        var low := Unit(rest[2..]);
        if low.Some? && 0xDC00 <= low.value < 0xE000 then
          Some(((0x1_0000 + 1024 * (u.value - 0xD800) + (low.value - 0xDC00)) as char, rest[6..]))
        else Some((REPLACEMENT, rest))
      else Some((REPLACEMENT, rest))
  }

  /** What follows a backslash. */
  function ReadEscape(s: string): (r: Option<(char, string)>)
    ensures r.Some? ==> |r.value.1| < |s|
  {
    if s == "" then None
    else
      match s[0]
      case '\"' => Some(('\"', s[1..]))
      case '\\' => Some(('\\', s[1..]))
      case '/' => Some(('/', s[1..]))
      case 'b' => Some(('\U{8}', s[1..]))
      case 'f' => Some(('\U{C}', s[1..]))
      case 'n' => Some(('\n', s[1..]))
      case 'r' => Some(('\r', s[1..]))
      case 't' => Some(('\t', s[1..]))
      case 'u' => UnicodeEscape(s[1..])
      case _ => None
  }

  /** The text up to the closing quote, and what follows it. A decoded string is never longer
      than its encoding. */
  function ReadChars(s: string): (r: Option<(string, string)>)
    ensures r.Some? ==> |r.value.0| + 1 + |r.value.1| <= |s|
    decreases |s|
  {
    if s == "" then None
    else if s[0] == '\"' then Some(("", s[1..]))
    else if s[0] == '\\' then
      var e := ReadEscape(s[1..]);
      if e.None? then None
      else
        var more := ReadChars(e.value.1);
        if more.None? then None else Some(([e.value.0] + more.value.0, more.value.1))
    else if s[0] < ' ' then None
    else
      var more := ReadChars(s[1..]);
      if more.None? then None else Some(([s[0]] + more.value.0, more.value.1))
  }

  // ----- reading a value ----------------------------------------------------------------

  predicate IsBlank(c: char) {
    c == ' ' || c == '\t' || c == '\n' || c == '\r'
  }

  function SkipBlanks(s: string): (r: string)
    ensures |r| <= |s| && (r != "" ==> !IsBlank(r[0]))
  {
    if s != "" && IsBlank(s[0]) then SkipBlanks(s[1..]) else s
  }

  function Digits(s: string): (n: nat)
    ensures n <= |s|
  {
    if s != "" && IsDigit(s[0]) then 1 + Digits(s[1..]) else 0
  }

  function FractionLength(s: string): (n: nat)
    ensures n <= |s|
  {
    if s != "" && s[0] == '.' && Digits(s[1..]) > 0 then 1 + Digits(s[1..]) else 0
  }

  function ExponentLength(s: string): (n: nat)
    ensures n <= |s|
  {
    if s == "" || (s[0] != 'e' && s[0] != 'E') then 0
    else
      var sign := if |s| > 1 && (s[1] == '+' || s[1] == '-') then 2 else 1;
      if Digits(s[sign..]) > 0 then sign + Digits(s[sign..]) else 0
  }

  /** How much of the text is a number; 0 when none starts here. */
  function NumberLength(s: string): (n: nat)
    ensures n <= |s|
  {
    var sign := if s != "" && s[0] == '-' then 1 else 0;
    var whole := if |s| > sign && s[sign] == '0' then 1 else Digits(s[sign..]);
    if whole == 0 then 0
    else
      var i := sign + whole;
      var j := i + FractionLength(s[i..]);
      j + ExponentLength(s[j..])
  }

  /** The literal names, Python's three beyond the standard among them. */
  function ReadName(s: string): Option<(Json, string)> {
    if "null" <= s then Some((Null, s[4..]))
    else if "true" <= s then Some((Bool(true), s[4..]))
    else if "false" <= s then Some((Bool(false), s[5..]))
    else if "NaN" <= s then Some((Number("NaN"), s[3..]))
    else if "Infinity" <= s then Some((Number("Infinity"), s[8..]))
    else if "-Infinity" <= s then Some((Number("-Infinity"), s[9..]))
    else None
  }

  function ReadValue(s: string): (r: Option<(Json, string)>)
    ensures r.Some? ==> |r.value.1| < |s|
    decreases |s|, 0
  {
    if s == "" then None
    else if s[0] == '\"' then
      var chars := ReadChars(s[1..]);
      if chars.None? then None else Some((String(chars.value.0), chars.value.1))
    else if s[0] == '{' then
      var t := SkipBlanks(s[1..]);
      if t != "" && t[0] == '}' then Some((Object([]), t[1..]))
      else
        var members := ReadMembers(t);
        if members.None? then None else Some((Object(members.value.0), members.value.1))
    else if s[0] == '[' then
      var t := SkipBlanks(s[1..]);
      if t != "" && t[0] == ']' then Some((Array([]), t[1..]))
      else
        var items := ReadItems(t);
        if items.None? then None else Some((Array(items.value.0), items.value.1))
    else if NumberLength(s) > 0 then Some((Number(s[..NumberLength(s)]), s[NumberLength(s)..]))
    else ReadName(s)
  }

  /** The items of an array, up to its closing bracket. */
  function ReadItems(s: string): (r: Option<(seq<Json>, string)>)
    ensures r.Some? ==> |r.value.1| < |s|
    decreases |s|, 1
  {
    var first := ReadValue(s);
    if first.None? then None
    else
      var t := SkipBlanks(first.value.1);
      if t == "" then None
      else if t[0] == ']' then Some(([first.value.0], t[1..]))
      else if t[0] == ',' then
        var more := ReadItems(SkipBlanks(t[1..]));
        if more.None? then None else Some(([first.value.0] + more.value.0, more.value.1))
      else None
  }

  /** One member's key and value. */
  function ReadMember(s: string): (r: Option<((string, Json), string)>)
    ensures r.Some? ==> |r.value.1| < |s|
    decreases |s|, 1
  {
    if s == "" || s[0] != '\"' then None
    else
      var key := ReadChars(s[1..]);
      if key.None? then None
      else
        var t := SkipBlanks(key.value.1);
        if t == "" || t[0] != ':' then None
        else
          var v := ReadValue(SkipBlanks(t[1..]));
          if v.None? then None else Some(((key.value.0, v.value.0), v.value.1))
  }

  /** The members of an object, up to its closing brace. */
  function ReadMembers(s: string): (r: Option<(seq<(string, Json)>, string)>)
    ensures r.Some? ==> |r.value.1| < |s|
    decreases |s|, 2
  {
    var first := ReadMember(s);
    if first.None? then None
    else
      var t := SkipBlanks(first.value.1);
      if t == "" then None
      else if t[0] == '}' then Some(([first.value.0], t[1..]))
      else if t[0] == ',' then
        var more := ReadMembers(SkipBlanks(t[1..]));
        if more.None? then None else Some(([first.value.0] + more.value.0, more.value.1))
      else None
  }

  /** json.loads: one value and nothing after it. */
  function Loads(s: string): Option<Json> {
    var v := ReadValue(SkipBlanks(s));
    if v.Some? && SkipBlanks(v.value.1) == "" then Some(v.value.0) else None
  }

  /** A member by its key: the last one, as a dict keeps it. */
  function Get(members: seq<(string, Json)>, key: string): Option<Json> {
    if members == [] then None
    else
      var last := members[|members| - 1];
      if last.0 == key then Some(last.1) else Get(members[..|members| - 1], key)
  }

  // ----- a string is read back as it was written ----------------------------------------------

  lemma {:induction false} EscapeRead(c: char, rest: string)
    ensures Escape(c)[0] == '\\' ==> ReadEscape((Escape(c) + rest)[1..]) == Some((c, rest))
    ensures Escape(c)[0] != '\\' ==> Escape(c) == [c] && c != '\"' && c >= ' '
  {
    var e := Escape(c);
    if |e| == 2 {
      assert (e + rest)[1..] == [e[1]] + rest;
    } else if |e| == 6 {
      var n := c as nat;
      var t := (e + rest)[1..];
      assert t == e[1..] + rest;
      assert t[1..] == e[2..] + rest;
      assert HexValue(HexDigit(n / 16)) == Some(n / 16) && HexValue(HexDigit(n % 16)) == Some(n % 16);
      assert Unit(t[1..]) == Some(n);
      assert t[1..][4..] == rest;
    }
  }

  lemma BodyCons(s: string, rest: string)
    requires s != ""
    ensures Body(s, rest) == Escape(s[0]) + Body(s[1..], rest)
  {
    Associate(Escape(s[0]), Escaped(s[1..]), "\"" + rest);
  }

  lemma QuotedTake(text: string, rest: string, j: nat)
    requires j <= |rest|
    ensures |Quoted(text, rest)| == |Escaped(text)| + 2 + |rest|
    ensures Quoted(text, rest)[..|Escaped(text)| + 2 + j] == Quoted(text, rest[..j])
  {
    var lead := "\"" + Escaped(text) + "\"";
    assert Quoted(text, rest) == lead + rest;
    assert Quoted(text, rest[..j]) == lead + rest[..j];
  }

  /** One written character is read as itself. */
  lemma ReadOne(c: char, more: string)
    ensures ReadChars(Escape(c) + more) ==
            if ReadChars(more).None? then None
            else Some(([c] + ReadChars(more).value.0, ReadChars(more).value.1))
  {
    var s := Escape(c) + more;
    EscapeRead(c, more);
    assert Escape(c) == [c] ==> s[1..] == more;
  }

  /** Whatever the text, reading what was written gives it back and stops at the closing
      quote. */
  lemma {:induction false} BodyRead(s: string, rest: string)
    ensures ReadChars(Body(s, rest)) == Some((s, rest))
  {
    if s == "" {
      assert Body(s, rest) == "\"" + rest;
    } else {
      var more := Body(s[1..], rest);
      BodyCons(s, rest);
      ReadOne(s[0], more);
      BodyRead(s[1..], rest);
      assert s == [s[0]] + s[1..];
    }
  }

  lemma ValueRead(s: string, rest: string)
    ensures ReadValue(Quoted(s, rest)) == Some((String(s), rest))
  {
    BodyRead(s, rest);
    assert Quoted(s, rest)[1..] == Body(s, rest);
  }

  lemma SkipNone(s: string)
    requires s != "" && !IsBlank(s[0])
    ensures SkipBlanks(s) == s && SkipBlanks(" " + s) == s
  {
    assert (" " + s)[1..] == s;
  }

  lemma {:induction false} MemberRead(key: string, text: string, rest: string)
    ensures ReadMember(Quoted(key, ": " + Quoted(text, rest))) == Some(((key, String(text)), rest))
  {
    var value := Quoted(text, rest);
    var t := ": " + value;
    BodyRead(key, t);
    assert Quoted(key, t)[1..] == Body(key, t);
    assert t[1..] == " " + value;
    SkipNone(t);
    SkipNone(value);
    ValueRead(text, rest);
  }

  lemma EscapeCut(c: char, k: nat)
    requires k < |Escape(c)|
    ensures k > 0 ==> Escape(c)[0] == '\\' && ReadEscape(Escape(c)[..k][1..]) == None
  {
    var e := Escape(c);
    if k == 1 {
      assert e[..1][1..] == "";
    } else if k > 1 {
      var t := e[..k][1..];
      assert t[0] == 'u' && |t[1..]| < 4;
    }
  }

  /** Cut anywhere before its closing quote, it is not read at all. */
  lemma {:induction false} EscapedCut(s: string, k: nat)
    requires k <= |Escaped(s)|
    ensures ReadChars(Escaped(s)[..k]) == None
  {
    if s != "" {
      var e := Escape(s[0]);
      if k < |e| {
        assert Escaped(s)[..k] == e[..k];
        EscapeCut(s[0], k);
        assert k > 0 ==> e[..k][0] == '\\';
      } else {
        var more := Escaped(s[1..])[..k - |e|];
        assert Escaped(s)[..k] == e + more;
        ReadOne(s[0], more);
        EscapedCut(s[1..], k - |e|);
      }
    }
  }

  // ----- how long a reading is ------------------------------------------------------------------

  /** The least a value can have been written in. */
  function Size(v: Json): nat {
    if v.String? then |v.text| + 2 else 1
  }

  /** The least the members can have been written in, each with its colon and what ends it. */
  function MembersSize(members: seq<(string, Json)>): nat {
    if members == [] then 0
    else |members[0].0| + 4 + Size(members[0].1) + MembersSize(members[1..])
  }

  lemma MemberFits(s: string)
    ensures var r := ReadMember(s);
            r.Some? ==> |r.value.0.0| + 3 + Size(r.value.0.1) + |r.value.1| <= |s|
  {
  }

  lemma {:induction false} MembersFit(s: string)
    ensures var r := ReadMembers(s); r.Some? ==> r.value.0 != [] && MembersSize(r.value.0) + |r.value.1| <= |s|
    decreases |s|
  {
    MemberFits(s);
    var first := ReadMember(s);
    if first.Some? {
      var t := SkipBlanks(first.value.1);
      if t != "" && t[0] == ',' {
        var rest := SkipBlanks(t[1..]);
        MembersFit(rest);
        var more := ReadMembers(rest);
        if more.Some? {
          assert ([first.value.0] + more.value.0)[1..] == more.value.0;
        }
      } else if t != "" && t[0] == '}' {
        assert [first.value.0][1..] == [];
      }
    }
  }

  lemma ObjectFits(s: string)
    ensures var v := Loads(s); v.Some? && v.value.Object? ==> MembersSize(v.value.members) + 1 <= |s|
  {
    var t := SkipBlanks(s);
    if t != "" {
      MembersFit(SkipBlanks(t[1..]));
    }
  }

  lemma {:induction false} MembersSizeSnoc(members: seq<(string, Json)>)
    requires members != []
    ensures var k := |members| - 1;
            MembersSize(members) == MembersSize(members[..k]) + |members[k].0| + 4 + Size(members[k].1)
  {
    var k := |members| - 1;
    if k > 0 {
      MembersSizeSnoc(members[1..]);
      assert members[1..][..k - 1] == members[..k][1..];
    } else {
      assert members[1..] == [] && members[..k] == [];
    }
  }

  /** A member found by its key was written among the others, and so were two of them. */
  lemma {:induction false} GetFits(members: seq<(string, Json)>, key: string)
    ensures var v := Get(members, key); v.Some? ==> |key| + 4 + Size(v.value) <= MembersSize(members)
  {
    if members != [] {
      MembersSizeSnoc(members);
      GetFits(members[..|members| - 1], key);
    }
  }

  lemma {:induction false} GetTwoFit(members: seq<(string, Json)>, a: string, b: string)
    requires a != b
    ensures var v, w := Get(members, a), Get(members, b);
            v.Some? && w.Some? ==> |a| + |b| + 8 + Size(v.value) + Size(w.value) <= MembersSize(members)
  {
    if members != [] {
      var k := |members| - 1;
      MembersSizeSnoc(members);
      GetFits(members[..k], a);
      GetFits(members[..k], b);
      GetTwoFit(members[..k], a, b);
    }
  }
}
