/** Connection strings: semicolon-separated key=value pairs, values optionally in braces. */
module ConnectionStrings {
  import opened Ascii

  const KEY_CAPACITY := 255
  const OUTPUT_CAPACITY := 2048

  datatype ConnectionInfo = ConnectionInfo(
    server: string, port: string, database: string, username: string,
    password: string, sslmode: string, applicationName: string)

  const Cleared := ConnectionInfo("", "", "", "", "", "", "")

  predicate Blank(c: char) {
    c == ' ' || c == '\t'
  }

  // ---- Storing one pair ----

  function Bounded(value: string, capacity: nat): (cut: string)
    ensures cut <= value && |cut| <= capacity && (|cut| < capacity ==> cut == value)
  {
    if |value| > capacity then value[..capacity] else value
  }

  function Store(info: ConnectionInfo, key: string, value: string): ConnectionInfo {
    if SameIgnoringCase(key, "Server") || SameIgnoringCase(key, "Servername") then info.(server := Bounded(value, 255))
    else if SameIgnoringCase(key, "Port") then info.(port := Bounded(value, 15))
    else if SameIgnoringCase(key, "Database") || SameIgnoringCase(key, "DB") then info.(database := Bounded(value, 255))
    else if SameIgnoringCase(key, "UID") || SameIgnoringCase(key, "Username") || SameIgnoringCase(key, "User") then
      info.(username := Bounded(value, 255))
    else if SameIgnoringCase(key, "PWD") || SameIgnoringCase(key, "Password") then info.(password := value)
    else if SameIgnoringCase(key, "SSLmode") then info.(sslmode := Bounded(value, 31))
    else if SameIgnoringCase(key, "ApplicationName") || SameIgnoringCase(key, "Application_Name") then
      info.(applicationName := Bounded(value, 255))
    // a data source name that odbc.ini does not know stands for the database
    else if SameIgnoringCase(key, "DSN") then info.(database := Bounded(value, 255))
    else info
  }

  predicate Names(key: string, names: seq<string>) {
    exists k :: 0 <= k < |names| && SameIgnoringCase(key, names[k])
  }

  const SERVER_KEYS := ["Server", "Servername"]
  const PORT_KEYS := ["Port"]
  // A data source name that odbc.ini does not know stands for the database.
  const DATABASE_KEYS := ["Database", "DB", "DSN"]
  const USER_KEYS := ["UID", "Username", "User"]
  const PASSWORD_KEYS := ["PWD", "Password"]
  const SSLMODE_KEYS := ["SSLmode"]
  const APPLICATION_KEYS := ["ApplicationName", "Application_Name"]

  // The value a pair gives to one field: its own value when the key names the field.
  function FieldAfter(key: string, names: seq<string>, value: string, capacity: nat, before: string): string {
    if Names(key, names) then Bounded(value, capacity) else before
  }

  lemma NamesOfTwo(key: string, a: string, b: string)
    ensures Names(key, [a, b]) <==> SameIgnoringCase(key, a) || SameIgnoringCase(key, b)
    ensures Names(key, [a]) <==> SameIgnoringCase(key, a)
  {
    hide SameIgnoringCase;
    assert [a, b][0] == a && [a, b][1] == b && [a][0] == a;
  }

  lemma NamesOfThree(key: string, a: string, b: string, c: string)
    ensures Names(key, [a, b, c]) <==> SameIgnoringCase(key, a) || SameIgnoringCase(key, b) || SameIgnoringCase(key, c)
  {
    hide SameIgnoringCase;
    assert [a, b, c][0] == a && [a, b, c][1] == b && [a, b, c][2] == c;
  }

  // The names of two fields differ in their length or their first letter.
  lemma NamesDiffer(key: string, a: string, b: string)
    requires a != "" && b != "" && (|a| != |b| || Lower(a[0]) != Lower(b[0]))
    ensures !(SameIgnoringCase(key, a) && SameIgnoringCase(key, b))
  {
  }

  /** Every pair sets the one field its key names, in any letter case, and leaves all others alone. */
  lemma StoreSetsNamedField(info: ConnectionInfo, key: string, value: string)
    ensures Store(info, key, value) ==
            ConnectionInfo(FieldAfter(key, SERVER_KEYS, value, 255, info.server),
                           FieldAfter(key, PORT_KEYS, value, 15, info.port),
                           FieldAfter(key, DATABASE_KEYS, value, 255, info.database),
                           FieldAfter(key, USER_KEYS, value, 255, info.username),
                           FieldAfter(key, PASSWORD_KEYS, value, |value|, info.password),
                           FieldAfter(key, SSLMODE_KEYS, value, 31, info.sslmode),
                           FieldAfter(key, APPLICATION_KEYS, value, 255, info.applicationName))
  {
    NamesOfTwo(key, "Server", "Servername");
    NamesOfTwo(key, "Port", "SSLmode");
    NamesOfThree(key, "Database", "DB", "DSN");
    NamesOfThree(key, "UID", "Username", "User");
    NamesOfTwo(key, "PWD", "Password");
    NamesOfTwo(key, "SSLmode", "Port");
    NamesOfTwo(key, "ApplicationName", "Application_Name");
    NamesDiffer(key, "Database", "Username");
    NamesDiffer(key, "Database", "Password");
    NamesDiffer(key, "Username", "Password");
    NamesDiffer(key, "UID", "PWD");
    NamesDiffer(key, "UID", "DSN");
    NamesDiffer(key, "PWD", "DSN");
    NamesDiffer(key, "Port", "User");
    hide Names;
  }

  // ---- Parsing ----

  function SkipLeading(s: string, semicolons: bool, tabs: bool): (r: string)
    ensures |r| <= |s|
  {
    if s != "" && (s[0] == ' ' || (tabs && s[0] == '\t') || (semicolons && s[0] == ';'))
    then SkipLeading(s[1..], semicolons, tabs) else s
  }

  function IndexOf(s: string, c: char): (i: nat)
    ensures i <= |s| && (i < |s| ==> s[i] == c)
  {
    if s == "" || s[0] == c then 0 else 1 + IndexOf(s[1..], c)
  }

  function TrimEnd(s: string): (r: string)
    ensures |r| <= |s|
  {
    if s != "" && Blank(s[|s| - 1]) then TrimEnd(s[..|s| - 1]) else s
  }

  // The value at the front of `s`, and the text behind it.
  function TakeValue(s: string): (result: (string, string))
    ensures |result.1| <= |s|
  {
    if s != "" && s[0] == '{' then
      var end := IndexOf(s[1..], '}');
      (s[1..][..end], SkipLeading(if end < |s| - 1 then s[end + 2..] else "", true, false))
    else
      var end := IndexOf(s, ';');
      (TrimEnd(s[..end]), s[end..])
  }

  function Parse(s: string, info: ConnectionInfo): ConnectionInfo
    decreases |s|
  {
    var pair := SkipLeading(s, true, true);
    var equals := IndexOf(pair, '=');
    if equals == |pair| then info
    else
      var key := Bounded(TrimEnd(pair[..equals]), KEY_CAPACITY);
      var (value, rest) := TakeValue(SkipLeading(pair[equals + 1..], false, true));
      Parse(rest, if key == "" then info else Store(info, key, value))
  }

  // ---- Printing ----

  // The fields in the order in which they are printed; the password is left out on purpose.
  function Fields(info: ConnectionInfo): seq<(string, string)> {
    [("Server", info.server), ("Port", info.port), ("Database", info.database),
     ("UID", info.username), ("SSLmode", info.sslmode)]
  }

  function FieldText(field: (string, string)): string {
    if field.1 == "" then "" else field.0 + "=" + field.1 + ";"
  }

  function Text(fields: seq<(string, string)>): string {
    if fields == [] then "" else FieldText(fields[0]) + Text(fields[1..])
  }

  function Print(info: ConnectionInfo): string {
    var all := Text(Fields(info));
    if all == "" then "" else all[..|all| - 1]
  }

  // ---- Reading back what was printed ----

  // A value that survives without braces.
  predicate Plain(value: string) {
    && (forall k :: 0 <= k < |value| ==> value[k] != ';')
    && (value != "" ==> value[0] != '{' && !Blank(value[0]) && !Blank(value[|value| - 1]))
  }

  // What the fixed-size fields of a connection can hold.
  predicate Sized(info: ConnectionInfo) {
    && |info.server| <= 255 && |info.port| <= 15 && |info.database| <= 255 && |info.username| <= 255
    && |info.sslmode| <= 31 && |info.applicationName| <= 255
  }

  // The key of a pair: some text without '=', blanks at either end or a semicolon in front.
  predicate Keyword(key: string) {
    && key != "" && '=' !in key
    && key[0] != ';' && !Blank(key[0]) && !Blank(key[|key| - 1])
  }

  predicate Key(key: string) {
    |key| <= KEY_CAPACITY && Keyword(key)
  }

  lemma {:induction false} IndexOfFirst(s: string, tail: string, c: char)
    requires (forall k :: 0 <= k < |s| ==> s[k] != c) && (tail == "" || tail[0] == c)
    ensures IndexOf(s + tail, c) == |s|
  {
    if s == "" {
      assert s + tail == tail;
    } else {
      assert (s + tail)[1..] == s[1..] + tail;
      IndexOfFirst(s[1..], tail, c);
    }
  }

  lemma FirstFound(s: string, tail: string, c: char)
    requires c !in s && (tail == "" || tail[0] == c)
    ensures IndexOf(s + tail, c) == |s|
  {
    forall k | 0 <= k < |s| ensures s[k] != c {
      assert s[k] in s;
    }
    IndexOfFirst(s, tail, c);
  }

  // The key of a printed pair is found whole.
  lemma PrintedKey(key: string, text: string)
    requires Key(key)
    ensures var s := key + "=" + text;
            SkipLeading(s, true, true) == s && IndexOf(s, '=') == |key| && s[|key| + 1..] == text
            && s[..|key|] == key && TrimEnd(key) == key
  {
    hide IndexOf, SkipLeading, TrimEnd;
    var s := key + "=" + text;
    assert s == key + ("=" + text) && s[0] == key[0];
    FirstFound(key, "=" + text, '=');
    NothingSkipped(s);
    NothingTrimmed(key);
  }

  lemma NothingSkipped(s: string)
    requires s != "" && s[0] != ';' && !Blank(s[0])
    ensures SkipLeading(s, true, true) == s
  {
  }

  lemma NothingTrimmed(s: string)
    requires s != "" && !Blank(s[|s| - 1])
    ensures TrimEnd(s) == s
  {
  }

  lemma PlainTaken(value: string, tail: string)
    requires Plain(value) && value != "" && (tail == "" || tail[0] == ';')
    ensures SkipLeading(value + tail, false, true) == value + tail && TakeValue(value + tail) == (value, tail)
  {
    IndexOfFirst(value, tail, ';');
    assert (value + tail)[0] == value[0];
    assert (value + tail)[..|value|] == value && TrimEnd(value) == value && (value + tail)[|value|..] == tail;
  }

  // A printed field stores its value; a missing one changes nothing.
  lemma ParseField(key: string, value: string, tail: string, info: ConnectionInfo)
    requires Key(key) && Plain(value) && value != "" && (tail == "" || tail[0] == ';')
    ensures Parse(key + "=" + value + tail, info) == Parse(tail, Store(info, key, value))
  {
    hide Store, SkipLeading, IndexOf, TrimEnd, TakeValue, Plain;
    PrintedKey(key, value + tail);
    PlainTaken(value, tail);
    assert key + "=" + value + tail == key + "=" + (value + tail);
  }

  lemma ParseSeparator(tail: string, info: ConnectionInfo)
    ensures Parse(";" + tail, info) == Parse(tail, info)
  {
    hide IndexOf, TrimEnd, TakeValue, Store;
    assert (";" + tail)[1..] == tail;
  }

  function StoreAll(info: ConnectionInfo, fields: seq<(string, string)>): ConnectionInfo
    decreases |fields|
  {
    if fields == [] then info
    else StoreAll(if fields[0].1 == "" then info else Store(info, fields[0].0, fields[0].1), fields[1..])
  }

  lemma {:induction false} SkipTwice(s: string)
    ensures SkipLeading(SkipLeading(s, true, false), true, true) == SkipLeading(s, true, true)
  {
    if s != "" && (s[0] == ' ' || s[0] == ';') {
      SkipTwice(s[1..]);
    }
  }

  lemma BracedTaken(value: string, tail: string)
    requires forall k :: 0 <= k < |value| ==> value[k] != '}'
    ensures var text := "{" + value + "}" + tail;
            && SkipLeading(text, false, true) == text
            && TakeValue(text) == (value, SkipLeading(tail, true, false))
  {
    var text := "{" + value + "}" + tail;
    assert text[1..] == value + ("}" + tail);
    IndexOfFirst(value, "}" + tail, '}');
    assert text[1..][..|value|] == value && text[|value| + 2..] == tail;
  }

  /** Braces carry any value without a closing brace, semicolons and outer blanks included. */
  lemma BracesKeepValue(key: string, value: string, tail: string, info: ConnectionInfo)
    requires Key(key) && forall k :: 0 <= k < |value| ==> value[k] != '}'
    ensures Parse(key + "={" + value + "}" + tail, info) == Parse(tail, Store(info, key, value))
  {
    hide Store, SkipLeading, IndexOf, TrimEnd, TakeValue;
    var text := "{" + value + "}" + tail;
    PrintedKey(key, text);
    assert key + "={" + value + "}" + tail == key + "=" + text;
    BracedTaken(value, tail);
    SkipTwice(tail);
    var stored := Store(info, key, value);
    assert Parse(SkipLeading(tail, true, false), stored) == Parse(tail, stored);
  }

  predicate Readable(fields: seq<(string, string)>) {
    forall k :: 0 <= k < |fields| ==> Key(fields[k].0) && Plain(fields[k].1)
  }

  lemma ParseNothing(info: ConnectionInfo)
    ensures Parse("", info) == info
  {
  }

  lemma ParseHead(key: string, value: string, rest: string, info: ConnectionInfo)
    requires Key(key) && Plain(value) && value != ""
    ensures var text := key + "=" + value + ";" + rest;
            Parse(text[..|text| - 1], info)
            == if rest == "" then Store(info, key, value) else Parse(rest[..|rest| - 1], Store(info, key, value))
  {
    hide Store, Parse, Key, Plain;
    var text := key + "=" + value + ";" + rest;
    var stored := Store(info, key, value);
    if rest == "" {
      assert text[..|text| - 1] == key + "=" + value + "";
      ParseField(key, value, "", info);
      ParseNothing(stored);
    } else {
      var tail := rest[..|rest| - 1];
      assert text[..|text| - 1] == key + "=" + value + (";" + tail);
      ParseField(key, value, ";" + tail, info);
      ParseSeparator(tail, stored);
    }
  }

  // Printed text, without its last semicolon, stores exactly the fields that are not empty.
  lemma {:induction false} ParseText(fields: seq<(string, string)>, info: ConnectionInfo)
    requires Readable(fields)
    ensures Text(fields) == "" ==> StoreAll(info, fields) == info
    ensures Text(fields) != "" ==>
              Parse(Text(fields)[..|Text(fields)| - 1], info) == StoreAll(info, fields)
  {
    hide Store, Parse, Key, Plain;
    if fields != [] {
      var (key, value) := fields[0];
      if value == "" {
        ParseText(fields[1..], info);
        assert Text(fields) == Text(fields[1..]);
      } else {
        ParseText(fields[1..], Store(info, key, value));
        ParseHead(key, value, Text(fields[1..]), info);
      }
    }
  }

  lemma FieldsReadable(info: ConnectionInfo)
    requires forall f :: f in Fields(info) ==> Plain(f.1)
    ensures Readable(Fields(info))
  {
    hide Plain, Key;
    var fields := Fields(info);
    KeysReadable();
    forall k | 0 <= k < |fields|
      ensures Key(fields[k].0) && Plain(fields[k].1)
    {
      assert fields[k] in fields;
    }
  }

  lemma KeysReadable()
    ensures Key("Server") && Key("Port") && Key("Database") && Key("UID") && Key("SSLmode")
  {
  }

  /** What SQLDriverConnect prints, parsed into a cleared connection, restores every printed field. */
  lemma PrintThenParse(info: ConnectionInfo)
    requires Sized(info) && forall f :: f in Fields(info) ==> Plain(f.1)
    ensures Parse(Print(info), Cleared) == info.(password := "", applicationName := "")
  {
    hide Parse, Plain, Store, StoreAll, Text, Readable, Fields, Sized;
    FieldsReadable(info);
    ParseText(Fields(info), Cleared);
    ParseNothing(Cleared);
    StoreFields(info);
  }

  lemma StoreFields(info: ConnectionInfo)
    requires Sized(info)
    ensures StoreAll(Cleared, Fields(info)) == info.(password := "", applicationName := "")
  {
    var fields := Fields(info);
    var a := Cleared.(server := info.server);
    var b := a.(port := info.port);
    var c := b.(database := info.database);
    var d := c.(username := info.username);
    var e := d.(sslmode := info.sslmode);
    assert StoreAll(e, fields[5..]) == e;
    assert StoreAll(d, fields[4..]) == e by { assert fields[4..][1..] == fields[5..]; }
    assert StoreAll(c, fields[3..]) == e by { assert fields[3..][1..] == fields[4..]; }
    assert StoreAll(b, fields[2..]) == e by { assert fields[2..][1..] == fields[3..]; }
    assert StoreAll(a, fields[1..]) == e by { assert fields[1..][1..] == fields[2..]; }
  }

  lemma TextInOrder(info: ConnectionInfo)
    ensures Text(Fields(info))
            == FieldText(("Server", info.server)) + FieldText(("Port", info.port))
               + FieldText(("Database", info.database))
               + FieldText(("UID", info.username)) + FieldText(("SSLmode", info.sslmode))
  {
    hide FieldText;
    var fields := Fields(info);
    assert fields[1..][1..] == fields[2..] && fields[2..][1..] == fields[3..];
    assert fields[3..][1..] == fields[4..] && fields[4..][1..] == fields[5..];
    assert Text(fields[4..]) == FieldText(fields[4]) + Text(fields[5..]);
    assert Text(fields[3..]) == FieldText(fields[3]) + Text(fields[4..]);
    assert Text(fields[2..]) == FieldText(fields[2]) + Text(fields[3..]);
    assert Text(fields[1..]) == FieldText(fields[1]) + Text(fields[2..]);
  }

  // The printed text never fills the buffer that it is built in.
  lemma PrintFits(info: ConnectionInfo)
    requires Sized(info)
    ensures |Text(Fields(info))| < OUTPUT_CAPACITY
  {
    TextInOrder(info);
  }

  lemma {:induction false} TextEndsInSemicolon(fields: seq<(string, string)>)
    ensures var text := Text(fields); text != "" ==> text[|text| - 1] == ';'
  {
    if fields != [] {
      TextEndsInSemicolon(fields[1..]);
    }
  }

  // ---- Pairs as people write them ----

  predicate Blanks(s: string) {
    forall c <- s :: Blank(c)
  }

  lemma {:induction false} LeadingSkipped(before: string, s: string, semicolons: bool)
    requires forall c <- before :: Blank(c) || (semicolons && c == ';')
    requires s != "" ==> !Blank(s[0]) && (semicolons ==> s[0] != ';')
    ensures SkipLeading(before + s, semicolons, true) == s
  {
    if before == "" {
      assert before + s == s;
    } else {
      assert before[0] in before && forall c <- before[1..] :: c in before;
      assert (before + s)[1..] == before[1..] + s;
      LeadingSkipped(before[1..], s, semicolons);
    }
  }

  lemma {:induction false} TrailingTrimmed(s: string, after: string)
    requires Blanks(after) && (s != "" ==> !Blank(s[|s| - 1]))
    ensures TrimEnd(s + after) == s
    decreases |after|
  {
    if after == "" {
      assert s + after == s;
    } else {
      var last := |after| - 1;
      assert after[last] in after && forall c <- after[..last] :: c in after;
      assert (s + after)[..|s| + last] == s + after[..last];
      TrailingTrimmed(s, after[..last]);
    }
  }

  // Up to its value a pair is read whatever separates it from the one before and surrounds its '='.
  lemma KeyTaken(before: string, key: string, after: string, inner: string, text: string, info: ConnectionInfo)
    requires (forall c <- before :: Blank(c) || c == ';') && Blanks(after) && Blanks(inner) && Keyword(key)
    requires text != "" ==> !Blank(text[0])
    ensures var (value, rest) := TakeValue(text);
            Parse(before + key + after + "=" + inner + text, info)
            == Parse(rest, Store(info, if |key| > 255 then key[..255] else key, value))
  {
    hide SkipLeading, IndexOf, TrimEnd, TakeValue, Store;
    var pair := key + after + "=" + inner + text;
    assert before + key + after + "=" + inner + text == before + pair;
    LeadingSkipped(before, pair, true);
    EqualsFound(key + after, inner + text);
    assert pair == (key + after) + ("=" + (inner + text));
    assert pair[..|key + after|] == key + after && pair[|key + after| + 1..] == inner + text;
    TrailingTrimmed(key, after);
    LeadingSkipped(inner, text, false);
  }

  lemma EqualsFound(front: string, text: string)
    requires '=' !in front
    ensures IndexOf(front + ("=" + text), '=') == |front| < |front + ("=" + text)|
  {
    FirstFound(front, "=" + text, '=');
  }

  /**
   A pair stores its value under its key, whatever semicolons and blanks stand in front of it and
   whatever blanks surround the key and the value; a key is cut off at 255 characters.
   */
  lemma ParsePair(before: string, key: string, after: string, inner: string, value: string, outer: string, tail: string,
                  info: ConnectionInfo)
    requires (forall c <- before :: Blank(c) || c == ';') && Blanks(after) && Blanks(inner) && Blanks(outer)
    requires Keyword(key) && Plain(value) && (tail == "" || tail[0] == ';') && (value == "" ==> outer == "")
    ensures Parse(before + key + after + "=" + inner + value + outer + tail, info)
            == Parse(tail, Store(info, if |key| > 255 then key[..255] else key, value))
  {
    hide SkipLeading, IndexOf, TrimEnd, Store, Parse;
    var text := value + outer + tail;
    assert before + key + after + "=" + inner + value + outer + tail == before + key + after + "=" + inner + text;
    KeyTaken(before, key, after, inner, text, info);
    PlainHasNoSemicolon(value, outer);
    FirstFound(value + outer, tail, ';');
    TrailingTrimmed(value, outer);
    assert text[..|value + outer|] == value + outer && text[|value + outer|..] == tail;
  }

  lemma PlainHasNoSemicolon(value: string, outer: string)
    requires Plain(value) && Blanks(outer)
    ensures ';' !in value + outer
  {
    forall c | c in value + outer ensures c != ';' {
      assert c in value || c in outer;
    }
  }

  /** So does a value in braces; an opening brace without a closing one takes the rest of the text. */
  lemma ParseBracedPair(before: string, key: string, after: string, inner: string, value: string, tail: string,
                        info: ConnectionInfo)
    requires (forall c <- before :: Blank(c) || c == ';') && Blanks(after) && Blanks(inner) && Keyword(key)
    requires '}' !in value
    ensures var stored := Store(info, if |key| > 255 then key[..255] else key, value);
            && Parse(before + key + after + "=" + inner + ("{" + value + "}" + tail), info) == Parse(tail, stored)
            && Parse(before + key + after + "=" + inner + ("{" + value), info) == stored
  {
    hide SkipLeading, IndexOf, TrimEnd, TakeValue, Store, Parse;
    var stored := Store(info, if |key| > 255 then key[..255] else key, value);
    KeyTaken(before, key, after, inner, "{" + value + "}" + tail, info);
    forall k | 0 <= k < |value| ensures value[k] != '}' {
      assert value[k] in value;
    }
    BracedTaken(value, tail);
    ParseSkipped(tail, stored);
    KeyTaken(before, key, after, inner, "{" + value, info);
    UnclosedTaken(value);
    ParseNothing(stored);
  }

  lemma ParseSkipped(tail: string, info: ConnectionInfo)
    ensures Parse(SkipLeading(tail, true, false), info) == Parse(tail, info)
  {
    hide IndexOf, TrimEnd, TakeValue, Store, SkipLeading;
    SkipTwice(tail);
  }

  lemma UnclosedTaken(value: string)
    requires '}' !in value
    ensures TakeValue("{" + value) == (value, "")
  {
    assert ("{" + value)[1..] == value && value + "" == value;
    FirstFound(value, "", '}');
  }

  /** A pair without a key is passed over; text without '=' ends the parsing. */
  lemma NamelessPair(before: string, value: string, tail: string, info: ConnectionInfo)
    requires (forall c <- before :: Blank(c) || c == ';') && Plain(value) && (tail == "" || tail[0] == ';')
    ensures Parse(before + ("=" + value + tail), info) == Parse(tail, info)
  {
    hide SkipLeading, IndexOf, TrimEnd, TakeValue, Store;
    LeadingSkipped(before, "=" + value + tail, true);
    assert "=" + value + tail == "" + ("=" + (value + tail));
    EqualsFound("", value + tail);
    assert ("=" + value + tail)[1..] == value + tail && ("=" + value + tail)[..0] == "" && TrimEnd("") == "";
    if value == "" {
      assert value + tail == tail;
      NothingTaken(tail);
    } else {
      PlainTaken(value, tail);
    }
  }

  lemma NothingTaken(tail: string)
    requires tail == "" || tail[0] == ';'
    ensures SkipLeading(tail, false, true) == tail && TakeValue(tail) == ("", tail)
  {
  }

  lemma NoPair(s: string, info: ConnectionInfo)
    requires '=' !in s
    ensures Parse(s, info) == info
  {
    hide TrimEnd, TakeValue, Store;
    StillNone(s);
    var pair := SkipLeading(s, true, true);
    assert pair + "" == pair;
    FirstFound(pair, "", '=');
  }

  lemma {:induction false} StillNone(s: string)
    ensures '=' !in s ==> '=' !in SkipLeading(s, true, true)
  {
    if s != "" && (Blank(s[0]) || s[0] == ';') {
      assert s == [s[0]] + s[1..];
      StillNone(s[1..]);
    }
  }

  // ---- When a single value is read back ----

  // A connection of which only the field at `k` of the printed list is set.
  function Only(k: nat, value: string): ConnectionInfo
    requires k < 5
  {
    match k
    case 0 => Cleared.(server := value)
    case 1 => Cleared.(port := value)
    case 2 => Cleared.(database := value)
    case 3 => Cleared.(username := value)
    case _ => Cleared.(sslmode := value)
  }

  lemma StoredValue(info: ConnectionInfo, key: string, value: string, k: nat)
    requires k < 5
    ensures Fields(Store(info, key, value))[k].1 == Fields(info)[k].1
            || |Fields(Store(info, key, value))[k].1| <= |value|
  {
    hide SameIgnoringCase;
  }

  // Whatever parsing puts into a field is shorter than the text that was parsed.
  lemma {:induction false} ParsedIsShorter(s: string, info: ConnectionInfo, k: nat)
    requires k < 5
    ensures Fields(Parse(s, info))[k].1 == Fields(info)[k].1 || |Fields(Parse(s, info))[k].1| < |s|
    decreases |s|
  {
    hide Store, Fields, SkipLeading, IndexOf, TrimEnd;
    var pair := SkipLeading(s, true, true);
    var equals := IndexOf(pair, '=');
    if equals < |pair| {
      var key := Bounded(TrimEnd(pair[..equals]), KEY_CAPACITY);
      var (value, rest) := TakeValue(SkipLeading(pair[equals + 1..], false, true));
      StoredValue(info, key, value, k);
      ParsedIsShorter(rest, if key == "" then info else Store(info, key, value), k);
    }
  }

  lemma {:induction false} IndexOfMisses(s: string, c: char)
    requires IndexOf(s, c) == |s|
    ensures forall k :: 0 <= k < |s| ==> s[k] != c
  {
    if s != "" {
      IndexOfMisses(s[1..], c);
      assert forall k :: 1 <= k < |s| ==> s[k] == s[1..][k - 1];
    }
  }

  // A value that needs braces loses at least one character.
  lemma TakesLess(value: string)
    requires !Plain(value)
    ensures |TakeValue(SkipLeading(value, false, true)).0| < |value|
  {
    var v := SkipLeading(value, false, true);
    if v == value && v[0] != '{' && IndexOf(v, ';') == |v| {
      IndexOfMisses(v, ';');
      assert v[..|v|] == v;
    }
  }

  lemma {:induction false} TextOfOne(fields: seq<(string, string)>, k: nat)
    requires k < |fields| && forall i :: 0 <= i < |fields| && i != k ==> fields[i].1 == ""
    ensures Text(fields) == FieldText(fields[k])
    decreases |fields|
  {
    if k > 0 {
      TextOfOne(fields[1..], k - 1);
    } else if |fields| > 1 {
      TextOfOne([fields[0]] + fields[2..], 0);
      assert ([fields[0]] + fields[2..])[1..] == fields[2..];
      assert Text(fields[1..]) == Text(fields[1..][1..]);
      assert fields[1..][1..] == fields[2..];
    }
  }

  lemma OnlyPrints(k: nat, value: string)
    requires k < 5 && value != ""
    ensures Key(Fields(Only(k, value))[k].0)
    ensures Print(Only(k, value)) == Fields(Only(k, value))[k].0 + "=" + value
  {
    hide Text;
    TextOfOne(Fields(Only(k, value)), k);
  }

  /** A value printed alone is restored if and only if it is plain. */
  lemma RestoredExactlyWhenPlain(k: nat, value: string)
    requires k < 5 && Sized(Only(k, value))
    ensures Parse(Print(Only(k, value)), Cleared) == Only(k, value) <==> Plain(value)
  {
    hide Parse, Store, Text, Plain, Print, Only, Fields;
    OnlyField(k, value);
    if Plain(value) {
      OnlyPlain(k, value);
      PrintThenParse(Only(k, value));
    } else {
      NotRestored(k, value);
    }
  }

  lemma OnlyField(k: nat, value: string)
    requires k < 5
    ensures Fields(Only(k, value))[k].1 == value && Plain("")
    ensures Only(k, value).(password := "", applicationName := "") == Only(k, value)
  {
  }

  lemma OnlyPlain(k: nat, value: string)
    requires k < 5 && Plain(value)
    ensures forall f :: f in Fields(Only(k, value)) ==> Plain(f.1)
  {
    assert Plain("");
    hide Plain;
  }

  lemma NotRestored(k: nat, value: string)
    requires k < 5 && value != "" && !Plain(value)
    ensures |Fields(Parse(Print(Only(k, value)), Cleared))[k].1| < |value|
  {
    assert Fields(Cleared)[k].1 == "";
    hide Store, Text, Plain, Print, Only, Fields, TakeValue, SkipLeading, IndexOf, TrimEnd;
    var key := Fields(Only(k, value))[k].0;
    OnlyPrints(k, value);
    PrintedKey(key, value);
    var (taken, rest) := TakeValue(SkipLeading(value, false, true));
    TakesLess(value);
    StoredValue(Cleared, key, taken, k);
    ParsedIsShorter(rest, Store(Cleared, key, taken), k);
  }
}

/** The connection's parameter block, filled pair by pair from a connection string. */
module ConnectionParameters {
  import opened Ascii
  import opened ConnectionStrings

  method SkipCharacters(text: string, position: nat, semicolons: bool, tabs: bool) returns (next: nat)
    requires position <= |text|
    ensures position <= next <= |text|
    ensures text[next..] == SkipLeading(text[position..], semicolons, tabs)
  {
    next := position;
    while next < |text| && (text[next] == ' ' || (tabs && text[next] == '\t') || (semicolons && text[next] == ';'))
      invariant position <= next <= |text|
      invariant SkipLeading(text[next..], semicolons, tabs) == SkipLeading(text[position..], semicolons, tabs)
    {
      assert text[next..][1..] == text[next + 1..];
      next := next + 1;
    }
  }

  method FindCharacter(text: string, position: nat, c: char) returns (next: nat)
    requires position <= |text|
    ensures position <= next <= |text|
    ensures next == position + IndexOf(text[position..], c)
  {
    next := position;
    while next < |text| && text[next] != c
      invariant position <= next <= |text|
      invariant position + IndexOf(text[position..], c) == next + IndexOf(text[next..], c)
    {
      assert text[next..][1..] == text[next + 1..];
      next := next + 1;
    }
  }

  method TrimBlanks(text: string, start: nat, end: nat) returns (last: nat)
    requires start <= end <= |text|
    ensures start <= last <= end
    ensures text[start..last] == TrimEnd(text[start..end])
  {
    last := end;
    while last > start && Blank(text[last - 1])
      invariant start <= last <= end
      invariant TrimEnd(text[start..last]) == TrimEnd(text[start..end])
    {
      assert text[start..last][..last - start - 1] == text[start..last - 1];
      last := last - 1;
    }
  }

  class Parameters {
    var server: string
    var port: string
    var database: string
    var username: string
    var password: string
    var sslmode: string
    var applicationName: string

    ghost function View(): ConnectionInfo
      reads this
    {
      ConnectionInfo(server, port, database, username, password, sslmode, applicationName)
    }

    ghost predicate Valid()
      reads this
    {
      Sized(View())
    }

    constructor ()
      ensures Valid() && View() == Cleared
    {
      server, port, database, username := "", "", "", "";
      password, sslmode, applicationName := "", "", "";
    }

    method StoreParameter(key: string, value: string)
      requires Valid()
      modifies this
      ensures Valid() && View() == Store(old(View()), key, value)
      ensures server == FieldAfter(key, SERVER_KEYS, value, 255, old(server))
      ensures port == FieldAfter(key, PORT_KEYS, value, 15, old(port))
      ensures database == FieldAfter(key, DATABASE_KEYS, value, 255, old(database))
      ensures username == FieldAfter(key, USER_KEYS, value, 255, old(username))
      ensures password == FieldAfter(key, PASSWORD_KEYS, value, |value|, old(password))
      ensures sslmode == FieldAfter(key, SSLMODE_KEYS, value, 31, old(sslmode))
      ensures applicationName == FieldAfter(key, APPLICATION_KEYS, value, 255, old(applicationName))
    {
      hide SameIgnoringCase, FieldAfter;
      StoreSetsNamedField(View(), key, value);
      if SameIgnoringCase(key, "Server") || SameIgnoringCase(key, "Servername") {
        server := Bounded(value, 255);
      } else if SameIgnoringCase(key, "Port") {
        port := Bounded(value, 15);
      } else if SameIgnoringCase(key, "Database") || SameIgnoringCase(key, "DB") {
        database := Bounded(value, 255);
      } else if SameIgnoringCase(key, "UID") || SameIgnoringCase(key, "Username") || SameIgnoringCase(key, "User") {
        username := Bounded(value, 255);
      } else if SameIgnoringCase(key, "PWD") || SameIgnoringCase(key, "Password") {
        password := value;
      } else if SameIgnoringCase(key, "SSLmode") {
        sslmode := Bounded(value, 31);
      } else if SameIgnoringCase(key, "ApplicationName") || SameIgnoringCase(key, "Application_Name") {
        applicationName := Bounded(value, 255);
      } else if SameIgnoringCase(key, "DSN") {
        database := Bounded(value, 255);
      }
    }

    // A value in braces; `position` is at the opening brace.
    method ScanBraced(text: string, position: nat) returns (value: string, next: nat)
      requires position < |text| && text[position] == '{'
      ensures position <= next <= |text|
      ensures (value, text[next..]) == TakeValue(text[position..])
    {
      hide SkipLeading, IndexOf, TrimEnd;
      ghost var s := text[position..];
      var start := position + 1;
      assert s[1..] == text[start..];
      next := FindCharacter(text, start, '}');
      ghost var end := next - start;
      value := text[start..next];
      assert value == text[start..][..end];
      if next < |text| {
        assert s[end + 2..] == text[next + 1..];
        next := next + 1;
      } else {
        assert text[next..] == "";
      }
      assert text[next..] == if end < |s| - 1 then s[end + 2..] else "";
      next := SkipCharacters(text, next, true, false);
    }

    method ScanBare(text: string, position: nat) returns (value: string, next: nat)
      requires position <= |text| && (position < |text| ==> text[position] != '{')
      ensures position <= next <= |text|
      ensures (value, text[next..]) == TakeValue(text[position..])
    {
      hide SkipLeading, IndexOf, TrimEnd;
      ghost var s := text[position..];
      assert s != "" ==> s[0] == text[position];
      next := FindCharacter(text, position, ';');
      assert s[..next - position] == text[position..next] && s[next - position..] == text[next..];
      var end := TrimBlanks(text, position, next);
      value := text[position..end];
    }

    // The loop of connection_string_parse.
    method ParseString(text: string)
      requires Valid()
      modifies this
      ensures Valid() && View() == Parse(text, old(View()))
    {
      hide Store, SkipLeading, IndexOf, TrimEnd, TakeValue, Sized;
      var position := 0;
      while position < |text|
        invariant position <= |text| && Valid()
        invariant Parse(text[position..], View()) == Parse(text, old(View()))
      {
        var start := SkipCharacters(text, position, true, true);
        assert SkipLeading(text[position..], true, true) == text[start..];
        if start >= |text| {
          break;
        }
        var equals := FindCharacter(text, start, '=');
        if equals >= |text| {
          break;
        }
        assert text[start..][..equals - start] == text[start..equals];
        assert text[start..][equals - start + 1..] == text[equals + 1..];
        var keyEnd := TrimBlanks(text, start, equals);
        var key := Bounded(text[start..keyEnd], KEY_CAPACITY);
        var valueStart := SkipCharacters(text, equals + 1, false, true);
        var value, next;
        if valueStart < |text| && text[valueStart] == '{' {
          value, next := ScanBraced(text, valueStart);
        } else {
          value, next := ScanBare(text, valueStart);
        }
        if key != "" {
          StoreParameter(key, value);
        }
        position := next;
      }
    }

    // snprintf of one "key=value;" at the running offset.
    method AppendField(buffer: array<char>, offset: nat, key: string, value: string) returns (next: nat)
      requires offset + |FieldText((key, value))| < buffer.Length
      modifies buffer
      ensures next == offset + |FieldText((key, value))|
      ensures buffer[..next] == old(buffer[..offset]) + FieldText((key, value))
    {
      next := offset;
      if value != "" {
        var piece := key + "=" + value + ";";
        while next < offset + |piece|
          invariant offset <= next <= offset + |piece|
          invariant buffer[..next] == old(buffer[..offset]) + piece[..next - offset]
        {
          buffer[next] := piece[next - offset];
          next := next + 1;
        }
      }
    }

    // The output string that SQLDriverConnect builds.
    method BuildOutput() returns (buffer: array<char>, length: nat)
      requires Valid()
      ensures fresh(buffer) && length < buffer.Length == OUTPUT_CAPACITY
      ensures buffer[..length] == Print(View())
    {
      hide FieldText, Text;
      PrintFits(View());
      TextInOrder(View());
      buffer := new char[OUTPUT_CAPACITY];
      length := AppendField(buffer, 0, "Server", server);
      length := AppendField(buffer, length, "Port", port);
      length := AppendField(buffer, length, "Database", database);
      length := AppendField(buffer, length, "UID", username);
      length := AppendField(buffer, length, "SSLmode", sslmode);
      assert buffer[..length] == Text(Fields(View()));
      assert Print(View()) == if length == 0 then "" else buffer[..length - 1];
      TextEndsInSemicolon(Fields(View()));
      if length > 0 && buffer[length - 1] == ';' {
        length := length - 1;
      }
    }
  }
}
