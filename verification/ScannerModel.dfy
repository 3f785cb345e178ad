/**
 What the scanner that rewrites ODBC text for PostgreSQL makes of its input: numbered parameter
 markers and expanded brace escapes, and how its lexical states relate to the splitter's.
 */
module ScannerModel {
  import opened Ascii
  import opened SqlLexer

  const QUERY_MAX_PARAMETERS := 256
  const QUERY_MAX_CALL_ARGUMENTS := 32
  const QUERY_MAX_CAST_LENGTH := 32
  const QUERY_MAX_CALL_LITERAL := 128
  const MAX_FN_ARGUMENTS := 16
  const MAX_FN_NAME := 63
  const MAX_CALL_NAME := 255
  const CALL_NAME_STOP := {'(', ' ', '\t', '}', '\n', '\r'}
  const FN_NAME_STOP := {'(', ' ', '\t', '}'}

  // One element of the output: a copied character, the '?' that "??" stands for, or a
  // numbered marker together with the input position of its '?'.
  datatype Item = Text(c: char) | Question | Marker(number: nat, position: nat)

  datatype Role = Input | ReturnValue

  datatype CallArgument = CallArgument(parameterNumber: nat, castSuffix: string, literalText: string)

  function Texts(s: string): (items: seq<Item>)
    ensures |items| == |s| && forall k :: 0 <= k < |s| ==> items[k] == Text(s[k])
  {
    seq(|s|, k requires 0 <= k < |s| => Text(s[k]))
  }

  lemma NoTexts()
    ensures Texts("") == []
  {
  }

  lemma TextsJoined(a: string, b: string)
    ensures Texts(a + b) == Texts(a) + Texts(b)
  {
  }

  // ---- What the output stands for ----

  function Decimal(n: nat): (s: string)
    ensures s != [] && forall k :: 0 <= k < |s| ==> '0' <= s[k] <= '9'
  {
    var digit := ['0', '1', '2', '3', '4', '5', '6', '7', '8', '9'][n % 10];
    if n < 10 then [digit] else Decimal(n / 10) + [digit]
  }

  function DecimalValue(s: string): int {
    if s == "" then 0 else 10 * DecimalValue(s[..|s| - 1]) + (s[|s| - 1] as int - '0' as int)
  }

  /** The digits of a number, without leading zeros, stand for it. */
  lemma {:induction false} DecimalStands(n: nat)
    ensures DecimalValue(Decimal(n)) == n
    ensures n > 0 ==> Decimal(n)[0] != '0'
    decreases n
  {
    if n >= 10 {
      DecimalStands(n / 10);
      var s := Decimal(n);
      assert s[..|s| - 1] == Decimal(n / 10);
    }
  }

  function Render(items: seq<Item>): string {
    if items == [] then ""
    else
      Render(items[..|items| - 1]) +
      match items[|items| - 1]
      case Text(c) => [c]
      case Question => "?"
      case Marker(number, _) => "$" + Decimal(number)
  }

  // The input text that the items were made from, when no escape was expanded.
  function Original(items: seq<Item>): string {
    if items == [] then ""
    else
      Original(items[..|items| - 1]) +
      match items[|items| - 1]
      case Text(c) => [c]
      case Question => "??"
      case Marker(_, _) => "?"
  }

  // A '$' in the input opens a dollar quote only behind such output.
  predicate CanOpenAfter(output: seq<Item>) {
    output == [] ||
    match output[|output| - 1]
    case Text(c) => !IdentifierPart(c)
    case Question => true
    case Marker(_, _) => false
  }

  lemma CanOpenAfterRendered(output: seq<Item>)
    ensures CanOpenAfter(output) <==> Render(output) == "" || !IdentifierPart(Render(output)[|Render(output)| - 1])
  {
    if output != [] && output[|output| - 1].Marker? {
      var d := Decimal(output[|output| - 1].number);
      assert Render(output)[|Render(output)| - 1] == d[|d| - 1];
    }
  }

  lemma {:induction false} OriginalJoined(a: seq<Item>, b: seq<Item>)
    ensures Original(a + b) == Original(a) + Original(b)
  {
    if b == [] {
      assert a + b == a;
    } else {
      var init := b[..|b| - 1];
      assert (a + b)[..|a + b| - 1] == a + init;
      OriginalJoined(a, init);
    }
  }

  lemma {:induction false} OriginalOfTexts(s: string)
    ensures Original(Texts(s)) == s
  {
    if s != [] {
      var init := s[..|s| - 1];
      assert Texts(s)[..|s| - 1] == Texts(init);
      OriginalOfTexts(init);
    }
  }

  // Every marker in the output carries the number under which its '?' was consumed.
  ghost predicate Numbered(items: seq<Item>, consumed: seq<nat>) {
    forall k :: 0 <= k < |items| && items[k].Marker? ==>
      1 <= items[k].number <= |consumed| && consumed[items[k].number - 1] == items[k].position
  }

  lemma NumberedLater(items: seq<Item>, consumed: seq<nat>, consumed': seq<nat>)
    requires Numbered(items, consumed) && consumed <= consumed'
    ensures Numbered(items, consumed')
  {
  }

  // The consumed markers, in order of their positions before `limit`.
  ghost predicate ConsumedMarkers(x: string, consumed: seq<nat>, limit: nat) {
    && (forall k :: 0 <= k < |consumed| ==> consumed[k] < limit && At(x, consumed[k], '?'))
    && (forall j, k :: 0 <= j < k < |consumed| ==> consumed[j] < consumed[k])
  }

  lemma ConsumedEarlier(x: string, consumed: seq<nat>, limit: nat, limit': nat)
    requires ConsumedMarkers(x, consumed, limit) && limit <= limit'
    ensures ConsumedMarkers(x, consumed, limit')
  {
  }

  lemma MarkerConsumed(x: string, consumed: seq<nat>, limit: nat, i: nat, limit': nat)
    requires ConsumedMarkers(x, consumed, limit) && limit <= i < limit' && At(x, i, '?')
    ensures ConsumedMarkers(x, consumed + [i], limit') && ConsumedSince(consumed, limit, consumed + [i])
  {
    var after := consumed + [i];
    forall k | 0 <= k < |after| ensures after[k] < limit' && At(x, after[k], '?') {
      if k < |consumed| {
        assert after[k] == consumed[k];
      }
    }
    forall j, k | 0 <= j < k < |after| ensures after[j] < after[k] {
      assert after[j] == consumed[j];
      if k < |consumed| {
        assert after[k] == consumed[k];
      }
    }
  }

  lemma NumberedJoined(a: seq<Item>, b: seq<Item>, consumed: seq<nat>)
    requires Numbered(a, consumed) && Numbered(b, consumed)
    ensures Numbered(a + b, consumed)
  {
  }

  // The marker arguments from `first` on have increasing numbers above `from`.
  ghost predicate NumberedArguments(arguments: seq<CallArgument>, first: nat, from: nat) {
    && (forall k :: first <= k < |arguments| && arguments[k].parameterNumber > 0 ==>
          arguments[k].parameterNumber > from)
    && (forall j, k :: first <= j < k < |arguments|
                       && arguments[j].parameterNumber > 0 && arguments[k].parameterNumber > 0 ==>
          arguments[j].parameterNumber < arguments[k].parameterNumber)
  }

  ghost predicate ArgumentsUpTo(arguments: seq<CallArgument>, limit: nat) {
    forall k :: 0 <= k < |arguments| ==> arguments[k].parameterNumber <= limit
  }

  lemma ArgumentAppended(arguments: seq<CallArgument>, first: nat, from: nat, limit: nat, argument: CallArgument)
    requires NumberedArguments(arguments, first, from) && ArgumentsUpTo(arguments, limit) && from <= limit
    requires argument.parameterNumber == 0 || argument.parameterNumber == limit + 1
    ensures NumberedArguments(arguments + [argument], first, from)
    ensures ArgumentsUpTo(arguments, limit + 1) && ArgumentsUpTo(arguments + [argument], limit + 1)
    ensures argument.parameterNumber == 0 ==> ArgumentsUpTo(arguments + [argument], limit)
  {
  }

  lemma NoArgumentsYet(arguments: seq<CallArgument>, from: nat)
    ensures NumberedArguments(arguments, |arguments|, from)
  {
  }

  // Markers consumed since `before` stand at or behind `start`.
  ghost predicate ConsumedSince(before: seq<nat>, start: nat, after: seq<nat>) {
    before <= after && forall k :: |before| <= k < |after| ==> start <= after[k]
  }

  lemma SinceJoined(a: seq<nat>, i: nat, b: seq<nat>, j: nat, c: seq<nat>)
    requires ConsumedSince(a, i, b) && ConsumedSince(b, j, c) && i <= j
    ensures ConsumedSince(a, i, c) && b <= c
  {
  }

  lemma SinceNothing(a: seq<nat>, i: nat)
    ensures ConsumedSince(a, i, a)
  {
  }

  // ---- Keywords and templates ----

  predicate KeywordAt(x: string, i: nat, keyword: string) {
    && i + |keyword| <= |x|
    && SameIgnoringCase(x[i..i + |keyword|], keyword)
    && !(i + |keyword| < |x| && IdentifierPart(x[i + |keyword|]))
  }

  datatype Template = NoTemplate | Template(text: string)

  function FindFunctionTemplate(name: string, argumentCount: nat): (t: Template)
    ensures t.Template? ==> t.text != [] && t.text[|t.text| - 1] != '$'
  {
    if SameIgnoringCase("CONCAT", name) then Template("concat($1::text, $2::text)")
    else if argumentCount == 2 && SameIgnoringCase("LOCATE", name) then Template("strpos($2, $1)")
    else if argumentCount == 3 && SameIgnoringCase("LOCATE", name) then
      Template("strpos(substring($2 from $3), $1) + $3 - 1")
    else if SameIgnoringCase("SUBSTRING", name) then Template("substr($*)")
    else if SameIgnoringCase("SPACE", name) then Template("repeat(' ', $1)")
    else if SameIgnoringCase("LENGTH", name) then Template("char_length($*)")
    else if SameIgnoringCase("LCASE", name) then Template("lower($*)")
    else if SameIgnoringCase("UCASE", name) then Template("upper($*)")
    else if SameIgnoringCase("IFNULL", name) then Template("coalesce($*)")
    else NoTemplate
  }

  function JoinArguments(arguments: seq<seq<Item>>): seq<Item> {
    if arguments == [] then []
    else if |arguments| == 1 then arguments[0]
    else JoinArguments(arguments[..|arguments| - 1]) + Texts(", ") + arguments[|arguments| - 1]
  }

  // What the template element at `i` stands for: "$N" for the argument N, "$*" for all of them.
  function ExpandAt(template: string, i: nat, arguments: seq<seq<Item>>): seq<Item>
    requires i < |template| && template[|template| - 1] != '$'
  {
    if template[i] != '$' then [Text(template[i])]
    else if template[i + 1] == '*' then JoinArguments(arguments)
    else if '1' <= template[i + 1] <= '9' then
      var index := template[i + 1] as int - '1' as int;
      if index < |arguments| then arguments[index] else []
    else [Text('$'), Text(template[i + 1])]
  }

  function Expand(template: string, i: nat, arguments: seq<seq<Item>>): seq<Item>
    requires i <= |template| && (template == [] || template[|template| - 1] != '$')
    decreases |template| - i
  {
    if i == |template| then []
    else ExpandAt(template, i, arguments) + Expand(template, i + if template[i] == '$' then 2 else 1, arguments)
  }

  function FunctionText(name: string, arguments: seq<seq<Item>>): seq<Item> {
    match FindFunctionTemplate(name, |arguments|)
    case Template(text) => Expand(text, 0, arguments)
    case NoTemplate => Texts(name) + Texts("(") + JoinArguments(arguments) + Texts(")")
  }

  ghost predicate AllNumbered(arguments: seq<seq<Item>>, consumed: seq<nat>) {
    forall k :: 0 <= k < |arguments| ==> Numbered(arguments[k], consumed)
  }

  lemma {:induction false} JoinNumbered(arguments: seq<seq<Item>>, consumed: seq<nat>)
    requires AllNumbered(arguments, consumed)
    ensures Numbered(JoinArguments(arguments), consumed)
  {
    if |arguments| > 1 {
      JoinNumbered(arguments[..|arguments| - 1], consumed);
    }
  }

  lemma ExpandAtNumbered(template: string, i: nat, arguments: seq<seq<Item>>, consumed: seq<nat>)
    requires i < |template| && template[|template| - 1] != '$' && AllNumbered(arguments, consumed)
    ensures Numbered(ExpandAt(template, i, arguments), consumed)
  {
    hide JoinArguments;
    JoinNumbered(arguments, consumed);
  }

  lemma {:induction false} ExpandNumbered(template: string, i: nat, arguments: seq<seq<Item>>, consumed: seq<nat>)
    requires i <= |template| && (template == [] || template[|template| - 1] != '$') && AllNumbered(arguments, consumed)
    ensures Numbered(Expand(template, i, arguments), consumed)
    decreases |template| - i
  {
    hide ExpandAt, AllNumbered;
    if i < |template| {
      var next := i + if template[i] == '$' then 2 else 1;
      ExpandAtNumbered(template, i, arguments, consumed);
      ExpandNumbered(template, next, arguments, consumed);
      NumberedJoined(ExpandAt(template, i, arguments), Expand(template, next, arguments), consumed);
    }
  }

  lemma FunctionTextNumbered(name: string, arguments: seq<seq<Item>>, consumed: seq<nat>)
    requires AllNumbered(arguments, consumed)
    ensures Numbered(FunctionText(name, arguments), consumed)
  {
    JoinNumbered(arguments, consumed);
    match FindFunctionTemplate(name, |arguments|)
    case Template(text) => ExpandNumbered(text, 0, arguments, consumed);
    case NoTemplate =>
  }

  // ---- One unit outside the escapes ----

  function ScanUnit(x: string, scs: bool, i: nat, state: LexState, canOpen: bool): (u: Unit)
    requires i < |x|
    ensures i < u.end <= |x|
  {
    if state.Normal? && PairAt(x, i) then Unit(i + 2, Normal, false) else LexUnit(x, scs, i, state, canOpen)
  }

  // What the unit between `i` and `end` leaves in the output.
  function UnitItems(x: string, i: nat, end: nat, state: LexState, number: nat): seq<Item>
    requires i < end <= |x|
  {
    if state.Normal? && PairAt(x, i) then [Question]
    else if state.Normal? && MarkerAt(x, i) then [Marker(number, i)]
    else Texts(x[i..end])
  }

  lemma UnitItemsOriginal(x: string, scs: bool, i: nat, state: LexState, canOpen: bool, number: nat)
    requires i < |x|
    ensures var u := ScanUnit(x, scs, i, state, canOpen);
            Original(UnitItems(x, i, u.end, state, number)) == x[i..u.end]
  {
    var u := ScanUnit(x, scs, i, state, canOpen);
    OriginalOfTexts(x[i..u.end]);
    if state.Normal? && MarkerAt(x, i) {
      assert Original([]) == "" && [Marker(number, i)][..0] == [];
    }
    if state.Normal? && PairAt(x, i) {
      assert Original([]) == "" && [Question][..0] == [];
    }
  }

  // ---- Where the scanner rewrites its input ----

  function BlankEnd(x: string, i: nat): (end: nat)
    requires i <= |x|
    ensures i <= end <= |x|
    decreases |x| - i
  {
    if i < |x| && Blank(x[i]) then BlankEnd(x, i + 1) else i
  }

  function PadEnd(x: string, i: nat): (end: nat)
    requires i <= |x|
    ensures i <= end <= |x|
    decreases |x| - i
  {
    if i < |x| && (x[i] == ' ' || x[i] == '\t') then PadEnd(x, i + 1) else i
  }

  // Behind the run "() VALUES ()" that begins at the '(' at `i`, or 0.
  function EmptyValuesEnd(x: string, i: nat): (end: nat)
    requires At(x, i, '(')
    ensures end == 0 || i < end <= |x|
  {
    var columns := PadEnd(x, i + 1);
    if !At(x, columns, ')') then 0
    else
      var keyword := BlankEnd(x, columns + 1);
      if !KeywordAt(x, keyword, "values") then 0
      else
        var values := BlankEnd(x, keyword + 6);
        if !At(x, values, '(') || !At(x, PadEnd(x, values + 1), ')') then 0 else PadEnd(x, values + 1) + 1
  }

  predicate EmptyValuesAt(x: string, i: nat) {
    At(x, i, '(') && EmptyValuesEnd(x, i) > 0
  }

  predicate StatementIsInsert(x: string) {
    KeywordAt(x, BlankEnd(x, 0), "insert")
  }

  datatype Escape =
    | FunctionEscape
    | DatetimeEscape(castSuffix: string)
    | OuterJoinEscape
    | LikeEscape
    | CallEscape
    | NoEscape

  // The escape whose keyword stands at `i`.
  function EscapeAt(x: string, i: nat): Escape {
    if KeywordAt(x, i, "fn") then FunctionEscape
    else if KeywordAt(x, i, "ts") then DatetimeEscape("::timestamp")
    else if KeywordAt(x, i, "d") then DatetimeEscape("::date")
    else if KeywordAt(x, i, "t") then DatetimeEscape("::time")
    else if KeywordAt(x, i, "oj") then OuterJoinEscape
    else if KeywordAt(x, i, "escape") then LikeEscape
    else if KeywordAt(x, i, "call") || At(x, i, '?') then CallEscape
    else NoEscape
  }

  // A brace escape, "@@identity" or "() VALUES ()".
  predicate Rewritable(x: string, i: nat) {
    || (At(x, i, '{') && !EscapeAt(x, PadEnd(x, i + 1)).NoEscape?)
    || KeywordAt(x, i, "@@identity")
    || EmptyValuesAt(x, i)
  }

  // Outside literals and comments the scanner only copies and numbers, except at such a place.
  predicate Rewrites(x: string, i: nat) {
    Rewritable(x, i) && (EmptyValuesAt(x, i) ==> StatementIsInsert(x))
  }

  lemma IdentityStartsWithAt(x: string, i: nat)
    requires KeywordAt(x, i, "@@identity")
    ensures At(x, i, '@')
  {
    assert Lower(x[i..i + 10][0]) == Lower('@');
  }

  // The character tells which rewriting is possible.
  lemma RewritesBy(x: string, i: nat)
    requires i < |x|
    ensures x[i] == '{' ==> (Rewrites(x, i) <==> !EscapeAt(x, PadEnd(x, i + 1)).NoEscape?)
    ensures x[i] == '(' ==> (Rewrites(x, i) <==> StatementIsInsert(x) && EmptyValuesAt(x, i))
    ensures KeywordAt(x, i, "@@identity") ==> x[i] == '@' && i + 10 <= |x|
    ensures EmptyValuesAt(x, i) ==> x[i] == '('
    ensures x[i] !in {'{', '('} ==> (Rewrites(x, i) <==> KeywordAt(x, i, "@@identity"))
  {
    hide KeywordAt, EscapeAt, EmptyValuesEnd, StatementIsInsert;
    IdentityFits(x, i);
    if KeywordAt(x, i, "@@identity") {
      IdentityStartsWithAt(x, i);
    }
  }

  lemma IdentityFits(x: string, i: nat)
    ensures KeywordAt(x, i, "@@identity") ==> i + 10 <= |x|
  {
  }

  lemma OneText(c: char)
    ensures Texts([c]) == [Text(c)]
  {
  }

  // ---- Text without escapes, read unit by unit ----

  // What reading has produced so far: the items, where commas outside every inner parenthesis
  // stand among them, how many parentheses are open (it starts behind one), the lexical state and
  // the number of markers.
  datatype Reading = Reading(items: seq<Item>, cuts: seq<nat>, parens: int, state: LexState, number: nat)

  function StartReading(items: seq<Item>, number: nat): Reading {
    Reading(items, [], 1, Normal, number)
  }

  predicate NormalAt(x: string, i: nat, state: LexState, c: char) {
    state.Normal? && At(x, i, c)
  }

  // How a character outside literals changes the number of open parentheses.
  function Nesting(x: string, i: nat, state: LexState): int {
    if NormalAt(x, i, state, '(') then 1 else if NormalAt(x, i, state, ')') then -1 else 0
  }

  function ReadUnit(x: string, scs: bool, i: nat, r: Reading): Reading
    requires i < |x|
  {
    var u := ScanUnit(x, scs, i, r.state, CanOpenAfter(r.items));
    Reading(r.items + UnitItems(x, i, u.end, r.state, r.number + 1),
            if NormalAt(x, i, r.state, ',') && r.parens == 1 then r.cuts + [|r.items|] else r.cuts,
            r.parens + Nesting(x, i, r.state),
            u.state,
            r.number + if r.state.Normal? && MarkerAt(x, i) then 1 else 0)
  }

  function UnitEnd(x: string, scs: bool, i: nat, r: Reading): (end: nat)
    requires i < |x|
    ensures i < end <= |x|
  {
    ScanUnit(x, scs, i, r.state, CanOpenAfter(r.items)).end
  }

  // Units are read from `i` on until `limit` is reached.
  function ReadTo(x: string, scs: bool, i: nat, limit: nat, r: Reading): (nat, Reading)
    requires i <= |x|
    decreases |x| - i
  {
    if i >= limit || i == |x| then (i, r)
    else ReadTo(x, scs, UnitEnd(x, scs, i, r), limit, ReadUnit(x, scs, i, r))
  }

  lemma {:induction false} ReadOneMore(x: string, scs: bool, i: nat, limit: nat, r: Reading)
    requires i <= limit < |x| && ReadTo(x, scs, i, limit, r).0 == limit
    ensures var last := ReadTo(x, scs, i, limit, r).1;
            ReadTo(x, scs, i, UnitEnd(x, scs, limit, last), r) ==
            (UnitEnd(x, scs, limit, last), ReadUnit(x, scs, limit, last))
    decreases |x| - i
  {
    hide UnitEnd, ReadUnit;
    if i < limit {
      var next := UnitEnd(x, scs, i, r);
      ReadReaches(x, scs, next, limit, ReadUnit(x, scs, i, r));
      ReadOneMore(x, scs, next, limit, ReadUnit(x, scs, i, r));
    }
  }

  lemma {:induction false} ReadReaches(x: string, scs: bool, i: nat, limit: nat, r: Reading)
    requires i <= |x|
    ensures ReadTo(x, scs, i, limit, r).0 >= i
    decreases |x| - i
  {
    hide UnitEnd, ReadUnit;
    if i < limit && i < |x| {
      ReadReaches(x, scs, UnitEnd(x, scs, i, r), limit, ReadUnit(x, scs, i, r));
    }
  }

  // The positions and states at which units begin, and the state at the end.
  function ReadTrace(x: string, scs: bool, i: nat, r: Reading): seq<(nat, LexState)>
    requires i <= |x|
    decreases |x| - i
  {
    if i == |x| then [(i, r.state)]
    else [(i, r.state)] + ReadTrace(x, scs, UnitEnd(x, scs, i, r), ReadUnit(x, scs, i, r))
  }

  // No place is met at which the scanner rewrites its input.
  predicate Untouched(x: string, scs: bool, i: nat, r: Reading)
    requires i <= |x|
    decreases |x| - i
  {
    i == |x| ||
    (!(r.state.Normal? && Rewrites(x, i)) && Untouched(x, scs, UnitEnd(x, scs, i, r), ReadUnit(x, scs, i, r)))
  }

  // ---- Kinds and extents of the escapes ----

  function KeywordLength(escape: Escape): nat {
    match escape
    case FunctionEscape => 2
    case DatetimeEscape(castSuffix) => if castSuffix == "::timestamp" then 2 else 1
    case OuterJoinEscape => 2
    case LikeEscape => 6
    case CallEscape => 0
    case NoEscape => 0
  }


  // The first '}' at or after `i`, or the end of the text.
  function BraceAt(x: string, i: nat): (brace: nat)
    requires i <= |x|
    ensures i <= brace <= |x| && (brace < |x| ==> x[brace] == '}')
    decreases |x| - i
  {
    if i < |x| && x[i] != '}' then BraceAt(x, i + 1) else i
  }

  function BehindBrace(x: string, i: nat): (end: nat)
    requires i <= |x|
    ensures i <= end <= |x|
  {
    if BraceAt(x, i) < |x| then BraceAt(x, i) + 1 else |x|
  }

  // The text before the closing brace, without the padding directly in front of it.
  function DatetimeBody(x: string, i: nat): string
    requires i <= |x|
    decreases |x| - i
  {
    if i == |x| || x[i] == '}' || At(x, PadEnd(x, i), '}') then "" else [x[i]] + DatetimeBody(x, i + 1)
  }

  lemma DatetimeBodyAt(x: string, i: nat)
    requires i <= |x|
    ensures i == |x| || x[i] == '}' ==> DatetimeBody(x, i) == "" && BraceAt(x, i) == i
    ensures i < |x| && x[i] != '}' ==>
              && BraceAt(x, i + 1) == BraceAt(x, i)
              && DatetimeBody(x, i) == if At(x, PadEnd(x, i), '}') then "" else [x[i]] + DatetimeBody(x, i + 1)
  {
  }

  // Behind the keyword of an escape that begins at `i`.
  function BodyStart(x: string, i: nat): (start: nat)
    requires i < |x|
    ensures i < start <= |x|
  {
    EscapeFits(x, PadEnd(x, i + 1));
    PadEnd(x, i + 1) + KeywordLength(EscapeAt(x, PadEnd(x, i + 1)))
  }

  lemma EscapeFits(x: string, i: nat)
    requires i <= |x|
    ensures i + KeywordLength(EscapeAt(x, i)) <= |x|
  {
    hide SameIgnoringCase;
  }

  // Behind a name of at most `limit` characters.
  function NameEnd(x: string, i: nat, limit: nat, stop: set<char>): (end: nat)
    requires i <= |x|
    ensures i <= end <= |x| && end - i <= limit
    decreases limit
  {
    if i < |x| && limit > 0 && x[i] !in stop then NameEnd(x, i + 1, limit - 1, stop) else i
  }

  lemma NameStep(x: string, i: nat, limit: nat, stop: set<char>)
    requires i <= |x|
    ensures NameEnd(x, i, limit, stop) ==
            if i < |x| && limit > 0 && x[i] !in stop then NameEnd(x, i + 1, limit - 1, stop) else i
  {
  }

  // A cast directly behind a marker argument, as far as its buffer reaches.
  function CastEnd(x: string, i: nat, limit: nat): (end: nat)
    requires i <= |x|
    ensures i <= end <= |x| && end - i <= limit
    decreases limit
  {
    if i < |x| && limit > 0 && IdentifierPart(x[i]) then CastEnd(x, i + 1, limit - 1) else i
  }

  function CastAt(x: string, i: nat): string
    requires i <= |x|
  {
    if At(x, i, ':') && At(x, i + 1, ':') then x[i..CastEnd(x, i + 2, QUERY_MAX_CAST_LENGTH - 3)] else ""
  }

  // Where a literal argument ends, and how many parentheses are open there: at the comma or the
  // closing parenthesis outside all others, or when its buffer is full.
  function LiteralEnd(x: string, i: nat, room: nat, parens: int): (result: (nat, int))
    requires i <= |x|
    ensures i <= result.0 <= |x| && (parens >= 1 ==> result.1 >= 1)
    ensures i < |x| && room > 0 && parens >= 1 && x[i] !in {',', ')'} ==> i < result.0
    decreases room
  {
    if i == |x| || room == 0 || (parens == 1 && x[i] in {',', ')'}) then (i, parens)
    else LiteralEnd(x, i + 1, room - 1, parens + if x[i] == '(' then 1 else if x[i] == ')' then -1 else 0)
  }

  // What is left of a text without the spaces and tabs at its end.
  function TrimPadding(s: string): (t: string)
    ensures t <= s && (t != "" ==> t[|t| - 1] != ' ' && t[|t| - 1] != '\t')
    ensures forall k :: |t| <= k < |s| ==> s[k] == ' ' || s[k] == '\t'
  {
    if s != "" && (s[|s| - 1] == ' ' || s[|s| - 1] == '\t') then TrimPadding(s[..|s| - 1]) else s
  }

  // Behind the optional "? =" of a call.
  function ReturnValueEnd(x: string, i: nat): (end: nat)
    requires i <= |x|
    ensures i <= end <= |x|
  {
    if At(x, i, '?') then
      var j := BlankEnd(x, i + 1);
      BlankEnd(x, if At(x, j, '=') then j + 1 else j)
    else i
  }

  // The argument that begins at `i` behind `number` markers, where it ends, and how many
  // parentheses are open there.
  function ArgumentAt(x: string, i: nat, depth: nat, number: nat): (result: (CallArgument, nat, nat))
    requires i < |x| && x[i] !in {',', ')'} && depth >= 1
    ensures i < result.1 <= |x| && result.2 >= 1
    ensures result.0.parameterNumber == if MarkerAt(x, i) then number + 1 else 0
  {
    if MarkerAt(x, i) then
      var cast := CastAt(x, BlankEnd(x, i + 1));
      (CallArgument(number + 1, cast, ""), BlankEnd(x, i + 1) + |cast|, depth)
    else
      var (end, depth') := LiteralEnd(x, i, QUERY_MAX_CALL_LITERAL - 1, depth);
      (CallArgument(0, "", TrimPadding(x[i..end])), end, depth')
  }

  function Recorded(arguments: seq<CallArgument>, argument: CallArgument): seq<CallArgument> {
    if |arguments| < QUERY_MAX_CALL_ARGUMENTS then arguments + [argument] else arguments
  }

  datatype CallList = CallList(end: nat, arguments: seq<CallArgument>, consumed: seq<nat>)

  // The arguments of a call from `i` on, behind those read before, up to the ')' that closes it.
  function ReadArguments(x: string, i: nat, depth: nat, arguments: seq<CallArgument>, consumed: seq<nat>)
    : (list: CallList)
    requires i <= |x| && depth >= 1
    ensures i <= list.end <= |x|
    decreases |x| - i
  {
    var start := BlankEnd(x, i);
    if start == |x| then CallList(start, arguments, consumed)
    else if x[start] == ')' then CallList(start + 1, arguments, consumed)
    else if x[start] == ',' then ReadArguments(x, start + 1, depth, arguments, consumed)
    else
      var (argument, end, depth') := ArgumentAt(x, start, depth, |consumed|);
      ReadArguments(x, BehindComma(x, BlankEnd(x, end)), depth', Recorded(arguments, argument),
                    if MarkerAt(x, start) then consumed + [start] else consumed)
  }

  lemma BlanksRead(x: string, i: nat, depth: nat, arguments: seq<CallArgument>, consumed: seq<nat>)
    requires i <= |x| && depth >= 1
    ensures ReadArguments(x, BlankEnd(x, i), depth, arguments, consumed)
            == ReadArguments(x, i, depth, arguments, consumed)
    ensures BlankEnd(x, BlankEnd(x, i)) == BlankEnd(x, i)
  {
    hide ArgumentAt;
    BlankEndStops(x, i);
  }

  lemma BlankEndStops(x: string, i: nat)
    requires i <= |x|
    ensures BlankEnd(x, BlankEnd(x, i)) == BlankEnd(x, i)
    ensures BlankEnd(x, i) < |x| ==> !Blank(x[BlankEnd(x, i)])
    decreases |x| - i
  {
  }

  lemma ReadArgumentsHere(x: string, i: nat, depth: nat, arguments: seq<CallArgument>, consumed: seq<nat>)
    requires i <= |x| && depth >= 1 && BlankEnd(x, i) == i
    ensures ReadArguments(x, i, depth, arguments, consumed) ==
            if i == |x| then CallList(i, arguments, consumed)
            else if x[i] == ')' then CallList(i + 1, arguments, consumed)
            else if x[i] == ',' then ReadArguments(x, i + 1, depth, arguments, consumed)
            else
              var (argument, end, depth') := ArgumentAt(x, i, depth, |consumed|);
              ReadArguments(x, BehindComma(x, BlankEnd(x, end)), depth', Recorded(arguments, argument),
                            if MarkerAt(x, i) then consumed + [i] else consumed)
  {
    hide ArgumentAt;
  }

  function BehindComma(x: string, i: nat): nat {
    if At(x, i, ',') then i + 1 else i
  }

  // Behind the name of the procedure.
  function CallOpen(x: string, i: nat): (open: nat)
    requires i <= |x|
    ensures i <= open <= |x|
  {
    var start := BlankEnd(x, if KeywordAt(x, i, "call") then i + 4 else i);
    BlankEnd(x, NameEnd(x, start, MAX_CALL_NAME, CALL_NAME_STOP))
  }

  // What the call whose body starts at `body` adds to the arguments and consumed markers.
  function CallOf(x: string, body: nat, arguments: seq<CallArgument>, consumed: seq<nat>): (list: CallList)
    requires body <= |x|
    ensures body <= list.end <= |x|
  {
    var counted := if At(x, body, '?') then consumed + [body] else consumed;
    var open := CallOpen(x, ReturnValueEnd(x, body));
    if At(x, open, '(') then ReadArguments(x, open + 1, 1, arguments, counted) else CallList(open, arguments, counted)
  }

  function CallHead(returnValues: nat): string {
    if returnValues > 0 then "SELECT " else "SELECT * FROM "
  }

  // The name of the procedure behind the optional keyword at `i`.
  function ProcedureName(x: string, i: nat): string
    requires i <= |x|
  {
    var start := BlankEnd(x, if KeywordAt(x, i, "call") then i + 4 else i);
    x[start..NameEnd(x, start, MAX_CALL_NAME, CALL_NAME_STOP)]
  }

  // ---- Steps of the scan ----

  lemma NothingNumbered(consumed: seq<nat>)
    ensures AllNumbered([], consumed)
  {
  }

  lemma AllNumberedAppended(arguments: seq<seq<Item>>, items: seq<Item>, consumed: seq<nat>)
    requires AllNumbered(arguments, consumed) && Numbered(items, consumed)
    ensures AllNumbered(arguments + [items], consumed)
  {
  }

  lemma AllNumberedLater(arguments: seq<seq<Item>>, consumed: seq<nat>, consumed': seq<nat>)
    requires AllNumbered(arguments, consumed) && consumed <= consumed'
    ensures AllNumbered(arguments, consumed')
  {
    forall k | 0 <= k < |arguments| ensures Numbered(arguments[k], consumed') {
      NumberedLater(arguments[k], consumed, consumed');
    }
  }

  lemma StepKeepsOriginal(x: string, scs: bool, before: seq<Item>, i: nat, state: LexState, number: nat)
    requires i < |x| && Original(before) == x[..i]
    ensures var u := ScanUnit(x, scs, i, state, CanOpenAfter(before));
            Original(before + UnitItems(x, i, u.end, state, number)) == x[..u.end]
  {
    hide LexUnit, UnitItems, CanOpenAfter, Original;
    var u := ScanUnit(x, scs, i, state, CanOpenAfter(before));
    OriginalJoined(before, UnitItems(x, i, u.end, state, number));
    UnitItemsOriginal(x, scs, i, state, CanOpenAfter(before), number);
    assert x[..u.end] == x[..i] + x[i..u.end];
  }

  lemma ReadKeepsOriginal(x: string, scs: bool, i: nat, r: Reading)
    requires i < |x| && Original(r.items) == x[..i]
    ensures Original(ReadUnit(x, scs, i, r).items) == x[..UnitEnd(x, scs, i, r)]
  {
    hide ScanUnit, UnitItems, CanOpenAfter, Original;
    StepKeepsOriginal(x, scs, r.items, i, r.state, r.number + 1);
  }
}
