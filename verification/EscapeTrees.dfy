/**
 Statements with brace escapes nested in one another, as trees: printed in ODBC's syntax, what the
 printed text stands for, and where the scanner reads it otherwise.
 */
module EscapeTrees {
  import opened EscapeModel
  import opened LiteralLexing
  import opened QuotedLiterals
  import opened ScannerModel
  import opened SqlLexer

  datatype Part =
    | Plain(c: char)
    | Quoted(literal: string)
    | Verbatim(head: char, tail: string)  // a quoted identifier, an escape string or a comment
    | Mark
    | Pair                                // "??", a question mark
    | Group(inner: seq<Part>)
    | Fn(name: string, arguments: seq<Argument>)
    | Join(body: seq<Part>)
    | Like(pattern: string)
    | Stamp(keyword: string, value: string)

  datatype Argument = Argument(parts: seq<Part>)

  // ---- The text of a tree ----

  function PrintedPart(p: Part): (s: string)
    ensures s != ""
    decreases p
  {
    match p
    case Plain(c) => [c]
    case Quoted(literal) => Written(literal)
    case Verbatim(head, tail) => [head] + tail
    case Mark => "?"
    case Pair => "??"
    case Group(inner) => "(" + Printed(inner) + ")"
    case Fn(name, arguments) => "{fn " + name + "(" + PrintedArguments(arguments) + ")}"
    case Join(body) => "{oj " + Printed(body) + "}"
    case Like(pattern) => "{escape " + pattern + "}"
    case Stamp(keyword, value) => "{" + keyword + " " + value + "}"
  }

  function Printed(parts: seq<Part>): string
    decreases parts
  {
    if parts == [] then "" else PrintedPart(parts[0]) + Printed(parts[1..])
  }

  function PrintedArguments(arguments: seq<Argument>): string
    decreases arguments
  {
    if arguments == [] then ""
    else if |arguments| == 1 then Printed(arguments[0].parts)
    else Printed(arguments[0].parts) + "," + PrintedArguments(arguments[1..])
  }

  // ---- Its meaning: what PostgreSQL is given ----

  // The positions of the markers when the text stands at `i`.
  function PartMarks(p: Part, i: nat): seq<nat>
    decreases p
  {
    match p
    case Mark => [i]
    case Group(inner) => Marks(inner, i + 1)
    case Fn(name, arguments) => ArgumentMarks(arguments, i + |name| + 5)
    case Join(body) => Marks(body, i + 4)
    case _ => []
  }

  function Marks(parts: seq<Part>, i: nat): seq<nat>
    decreases parts
  {
    if parts == [] then [] else PartMarks(parts[0], i) + Marks(parts[1..], i + |PrintedPart(parts[0])|)
  }

  function ArgumentMarks(arguments: seq<Argument>, i: nat): seq<nat>
    decreases arguments
  {
    if arguments == [] then []
    else Marks(arguments[0].parts, i) + ArgumentMarks(arguments[1..], i + |Printed(arguments[0].parts)| + 1)
  }

  // More than spaces, tabs and parentheses.
  predicate HasContent(parts: seq<Part>)
    decreases parts
  {
    parts != [] && (PartHasContent(parts[0]) || HasContent(parts[1..]))
  }

  predicate PartHasContent(p: Part)
    decreases p
  {
    match p
    case Plain(c) => c != ' ' && c != '\t'
    case Group(inner) => HasContent(inner)
    case _ => true
  }

  // Behind `n` markers; a call is expanded from what its arguments mean.
  function PartMeaning(p: Part, i: nat, n: nat): seq<Item>
    decreases p
  {
    match p
    case Plain(c) => [Text(c)]
    case Quoted(literal) => Texts(Written(literal))
    case Verbatim(head, tail) => Texts([head] + tail)
    case Mark => [Marker(n + 1, i)]
    case Pair => [Question]
    case Group(inner) => Texts("(") + Meaning(inner, i + 1, n) + Texts(")")
    case Fn(name, arguments) => FunctionText(name, Given(arguments, ArgumentMeanings(arguments, i + |name| + 5, n)))
    case Join(body) => Meaning(body, i + 4, n)
    case Like(pattern) => Texts("ESCAPE " + pattern)
    case Stamp(keyword, value) => Texts(TrimPadding(value) + CastOf(keyword))
  }

  function CastOf(keyword: string): string {
    if keyword == "ts" then "::timestamp" else if keyword == "d" then "::date" else "::time"
  }

  function Meaning(parts: seq<Part>, i: nat, n: nat): seq<Item>
    decreases parts
  {
    if parts == [] then []
    else
      PartMeaning(parts[0], i, n) +
      Meaning(parts[1..], i + |PrintedPart(parts[0])|, n + |PartMarks(parts[0], i)|)
  }

  function ArgumentMeanings(arguments: seq<Argument>, i: nat, n: nat): (meanings: seq<seq<Item>>)
    ensures |meanings| == |arguments|
    decreases arguments
  {
    if arguments == [] then []
    else
      [Meaning(arguments[0].parts, i, n)] +
      ArgumentMeanings(arguments[1..], i + |Printed(arguments[0].parts)| + 1, n + |Marks(arguments[0].parts, i)|)
  }

  // An argument list that holds nothing but padding has no arguments.
  function Given(arguments: seq<Argument>, meanings: seq<seq<Item>>): seq<seq<Item>> {
    if |arguments| == 1 && !HasContent(arguments[0].parts) then [] else meanings
  }

  // ---- Which trees can be printed ----

  function FirstCharacter(p: Part): char {
    match p
    case Plain(c) => c
    case Quoted(_) => QUOTE
    case Verbatim(head, _) => head
    case Mark => '?'
    case Pair => '?'
    case Group(_) => '('
    case _ => '{'
  }

  // Characters that would join with the end of the part.
  function Joining(p: Part): set<char> {
    match p
    case Plain(c) =>
      if c == 'e' || c == 'E' then {QUOTE} else if c == '-' then {'-'} else if c == '/' then {'*'} else {}
    case Quoted(_) => {QUOTE}
    case Verbatim(head, tail) => {QUOTE, '"'} * {([head] + tail)[|tail|]}
    case Mark => {'?'}
    case _ => {}
  }

  // From `i` on the lexer passes over the text and stops with it, in no state to take anything of it
  // for anything else.
  predicate Enclosed(text: string, scs: bool, i: nat, state: LexState)
    requires i <= |text|
    decreases |text| - i
  {
    if i == |text| then state.Normal?
    else
      var u := LexUnit(text, scs, i, state, false);
      !u.unterminated && (u.end < |text| ==> !u.state.Normal?) && Enclosed(text, scs, u.end, u.state)
  }

  // What stands between the keyword of an escape and its '}'.
  predicate BodyText(text: string) {
    (forall c <- text :: c != '}') && (text != "" ==> !Blank(text[0]))
  }

  // The surroundings bar some characters: a comma separates the arguments of a call outside all
  // parentheses, a closing brace ends a join.
  predicate PartPrintable(p: Part, barred: set<char>, scs: bool)
    decreases p
  {
    match p
    case Plain(c) => c !in {'?', '{', '@', '(', ')', QUOTE, '"', '$'} && c !in barred
    case Quoted(literal) => Intact(literal, scs)
    case Verbatim(head, tail) =>
      && head in {'"', '-', '/', 'E', 'e'}
      && !LexUnit([head] + tail, scs, 0, Normal, false).state.Normal? && Enclosed([head] + tail, scs, 0, Normal)
    case Mark => true
    case Pair => true
    case Group(inner) => Printable(inner, barred - {','}, scs)
    case Fn(name, arguments) =>
      && |name| <= MAX_FN_NAME && (forall c <- name :: c !in FN_NAME_STOP && !Blank(c))
      && 1 <= |arguments| <= MAX_FN_ARGUMENTS
      && forall a <- arguments :: Printable(a.parts, {','}, scs)
    case Join(body) => Printable(body, {'}'}, scs) && (body != [] ==> !Blank(FirstCharacter(body[0])))
    case Like(pattern) => BodyText(pattern)
    case Stamp(keyword, value) => keyword in ["d", "t", "ts"] && BodyText(value)
  }

  predicate Printable(parts: seq<Part>, barred: set<char>, scs: bool)
    decreases parts
  {
    parts == [] ||
    (PartPrintable(parts[0], barred, scs) && Printable(parts[1..], barred, scs)
     && (|parts| > 1 ==> FirstCharacter(parts[1]) !in Joining(parts[0])))
  }

  // ---- Where an INSERT is rewritten ----

  // A parenthesis met by a step of the scanner stays what it is, unless it begins "() VALUES ()" in an
  // INSERT statement.
  predicate Stays(x: string, i: nat) {
    !(StatementIsInsert(x) && EmptyValuesAt(x, i))
  }

  // Which parentheses are asked: all that a step can meet, outside and inside calls; those in the
  // arguments of a call, where only joins are stepped through; those outside all calls; and those
  // inside the calls alone.
  datatype Checks = Everywhere | InCall | OutsideCalls | InsideCalls

  predicate PartKept(x: string, p: Part, i: nat, checks: Checks)
    decreases p
  {
    match p
    case Group(inner) => (checks in {Everywhere, OutsideCalls} ==> Stays(x, i)) && Kept(x, inner, i + 1, checks)
    case Fn(name, arguments) => checks.OutsideCalls? || ArgumentsKept(x, arguments, i + |name| + 5)
    case Join(body) => Kept(x, body, i + 4, if checks.InCall? then Everywhere else checks)
    case _ => true
  }

  predicate Kept(x: string, parts: seq<Part>, i: nat, checks: Checks)
    decreases parts
  {
    parts == [] || (PartKept(x, parts[0], i, checks) && Kept(x, parts[1..], i + |PrintedPart(parts[0])|, checks))
  }

  predicate ArgumentsKept(x: string, arguments: seq<Argument>, i: nat)
    decreases arguments
  {
    arguments == [] ||
    (Kept(x, arguments[0].parts, i, InCall) && ArgumentsKept(x, arguments[1..], i + |Printed(arguments[0].parts)| + 1))
  }

  lemma PartKeptApart(x: string, p: Part, i: nat)
    ensures PartKept(x, p, i, Everywhere) <==> PartKept(x, p, i, OutsideCalls) && PartKept(x, p, i, InsideCalls)
    decreases p
  {
    hide Stays, ArgumentsKept, Kept;
    match p
    case Group(inner) => KeptApart(x, inner, i + 1);
    case Join(body) => KeptApart(x, body, i + 4);
    case _ =>
  }

  lemma KeptApart(x: string, parts: seq<Part>, i: nat)
    ensures Kept(x, parts, i, Everywhere) <==> Kept(x, parts, i, OutsideCalls) && Kept(x, parts, i, InsideCalls)
    decreases parts
  {
    hide PartKept, PrintedPart;
    if parts != [] {
      PartKeptApart(x, parts[0], i);
      KeptApart(x, parts[1..], i + |PrintedPart(parts[0])|);
    }
  }

  // Where no parenthesis begins "() VALUES ()" in an INSERT, all are kept.
  lemma PartStays(x: string, p: Part, i: nat, checks: Checks)
    requires forall k :: Stays(x, k)
    ensures PartKept(x, p, i, checks)
    decreases p
  {
    hide Stays;
    match p
    case Group(inner) => AllStay(x, inner, i + 1, checks);
    case Fn(name, arguments) => ArgumentsStay(x, arguments, i + |name| + 5);
    case Join(body) => AllStay(x, body, i + 4, if checks.InCall? then Everywhere else checks);
    case _ =>
  }

  lemma AllStay(x: string, parts: seq<Part>, i: nat, checks: Checks)
    requires forall k :: Stays(x, k)
    ensures Kept(x, parts, i, checks)
    decreases parts
  {
    hide Stays, PartKept, PrintedPart;
    if parts != [] {
      PartStays(x, parts[0], i, checks);
      AllStay(x, parts[1..], i + |PrintedPart(parts[0])|, checks);
    }
  }

  lemma ArgumentsStay(x: string, arguments: seq<Argument>, i: nat)
    requires forall k :: Stays(x, k)
    ensures ArgumentsKept(x, arguments, i)
    decreases arguments
  {
    hide Stays, Kept, Printed;
    if arguments != [] {
      AllStay(x, arguments[0].parts, i, InCall);
      ArgumentsStay(x, arguments[1..], i + |Printed(arguments[0].parts)| + 1);
    }
  }

  // ---- The scan behind a printed part ----

  function Behind(s: Scan, width: nat, items: seq<Item>, marks: seq<nat>): Scan {
    Scan(s.at + width, s.output + items, Normal, s.consumed + marks,
         s.call.(roles := WithInputs(s.call.roles, |s.consumed|, |s.consumed| + |marks|)))
  }

  function BehindPart(s: Scan, p: Part): Scan {
    Behind(s, |PrintedPart(p)|, PartMeaning(p, s.at, |s.consumed|), PartMarks(p, s.at))
  }

  function BehindParts(s: Scan, parts: seq<Part>): Scan {
    Behind(s, |Printed(parts)|, Meaning(parts, s.at, |s.consumed|), Marks(parts, s.at))
  }

  lemma BehindJoined(s: Scan, w: nat, a: seq<Item>, m: seq<nat>, w': nat, b: seq<Item>, m': seq<nat>)
    ensures Behind(Behind(s, w, a, m), w', b, m') == Behind(s, w + w', a + b, m + m')
  {
    assert s.output + a + b == s.output + (a + b);
    assert s.consumed + m + m' == s.consumed + (m + m');
    var roles, n := s.call.roles, |s.consumed|;
    assert WithInputs(WithInputs(roles, n, n + |m|), n + |m|, n + |m| + |m'|) == WithInputs(roles, n, n + |m + m'|);
  }

  lemma BehindNothing(s: Scan)
    requires s.state.Normal?
    ensures BehindParts(s, []) == s
  {
    NoInputs(s.call.roles, |s.consumed|);
    assert s.output + [] == s.output && s.consumed + [] == s.consumed;
  }

  lemma BehindFirst(s: Scan, parts: seq<Part>)
    requires parts != []
    ensures BehindParts(BehindPart(s, parts[0]), parts[1..]) == BehindParts(s, parts)
  {
    hide Behind, PartMeaning, PartMarks, PrintedPart, Meaning, Marks, Printed;
    var p, rest, i, n := parts[0], parts[1..], s.at, |s.consumed|;
    PartsUnfold(parts, i, n);
    BehindFields(s, |PrintedPart(p)|, PartMeaning(p, i, n), PartMarks(p, i));
    var t := BehindPart(s, p);
    BehindJoined(s, |PrintedPart(p)|, PartMeaning(p, i, n), PartMarks(p, i),
                 |Printed(rest)|, Meaning(rest, t.at, |t.consumed|), Marks(rest, t.at));
  }

  lemma PartsUnfold(parts: seq<Part>, i: nat, n: nat)
    requires parts != []
    ensures var p, rest := parts[0], parts[1..];
            && Printed(parts) == PrintedPart(p) + Printed(rest)
            && Marks(parts, i) == PartMarks(p, i) + Marks(rest, i + |PrintedPart(p)|)
            && Meaning(parts, i, n) ==
               PartMeaning(p, i, n) + Meaning(rest, i + |PrintedPart(p)|, n + |PartMarks(p, i)|)
  {
    hide PartMeaning, PartMarks, PrintedPart;
  }

  lemma BehindFields(s: Scan, width: nat, items: seq<Item>, marks: seq<nat>)
    ensures var t := Behind(s, width, items, marks);
            t.at == s.at + width && |t.consumed| == |s.consumed| + |marks| && t.state.Normal?
  {
  }
}
