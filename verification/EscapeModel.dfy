/**
 The whole scan as a function: one step is a lexical unit or a rewriting with everything nested in
 it, and the escape handlers call the step again for their own text.
 */
module EscapeModel {
  import opened CallReading
  import opened Options
  import opened ScannerModel
  import opened SqlLexer

  // What the scanner records about a procedure call, and the role of every marker.
  datatype Call = Call(
    isCall: bool, returnValues: nat, roles: seq<Role>, name: string, arguments: seq<CallArgument>)

  datatype Scan = Scan(at: nat, output: seq<Item>, state: LexState, consumed: seq<nat>, call: Call)

  function Started(): Scan {
    Scan(0, [], Normal, [], Call(false, 0, seq(QUERY_MAX_PARAMETERS, _ => Role.Input), "", []))
  }

  function WithRole(roles: seq<Role>, index: nat, role: Role): (r: seq<Role>)
    ensures |r| == |roles|
  {
    if index < |roles| then roles[index := role] else roles
  }

  function WithInputs(roles: seq<Role>, from: nat, until: nat): (r: seq<Role>)
    ensures |r| == |roles|
  {
    seq(|roles|, k requires 0 <= k < |roles| => if from <= k < until then Role.Input else roles[k])
  }

  lemma NoInputs(roles: seq<Role>, from: nat)
    ensures WithInputs(roles, from, from) == roles
  {
  }

  lemma OneMoreInput(roles: seq<Role>, from: nat, until: nat)
    requires from <= until
    ensures WithRole(WithInputs(roles, from, until), until, Role.Input) == WithInputs(roles, from, until + 1)
  {
  }

  // ---- One step ----

  // A unit that is not rewritten.
  function PlainStep(x: string, scs: bool, s: Scan): (t: Scan)
    requires s.at < |x|
    ensures s.at < t.at <= |x|
  {
    var u := ScanUnit(x, scs, s.at, s.state, CanOpenAfter(s.output));
    var output := s.output + UnitItems(x, s.at, u.end, s.state, |s.consumed| + 1);
    if s.state.Normal? && MarkerAt(x, s.at) then
      var roles := WithRole(s.call.roles, |s.consumed|, Role.Input);
      Scan(u.end, output, u.state, s.consumed + [s.at], s.call.(roles := roles))
    else Scan(u.end, output, u.state, s.consumed, s.call)
  }

  function Replaced(s: Scan, end: nat, text: string): Scan {
    s.(at := end, output := s.output + Texts(text))
  }

  function Step(x: string, scs: bool, s: Scan): (t: Scan)
    requires s.at < |x|
    ensures s.at < t.at <= |x|
    decreases |x| - s.at, 4
  {
    RewritesBy(x, s.at);
    if s.state.Normal? && KeywordAt(x, s.at, "@@identity") then Replaced(s, s.at + 10, "lastval()")
    else if s.state.Normal? && x[s.at] == '{' then OpenBrace(x, scs, s)
    else if s.state.Normal? && StatementIsInsert(x) && EmptyValuesAt(x, s.at) then
      Replaced(s, EmptyValuesEnd(x, s.at), "DEFAULT VALUES")
    else PlainStep(x, scs, s)
  }

  function OpenBrace(x: string, scs: bool, s: Scan): (t: Scan)
    requires At(x, s.at, '{')
    ensures s.at < t.at <= |x|
    decreases |x| - s.at, 3
  {
    var escape := EscapeAt(x, PadEnd(x, s.at + 1));
    if escape.NoEscape? then Replaced(s, s.at + 1, "{")
    else Escaped(x, scs, s.(at := BodyStart(x, s.at)), escape)
  }

  // The escape whose keyword has been consumed.
  function Escaped(x: string, scs: bool, s: Scan, escape: Escape): (t: Scan)
    requires s.at <= |x| && !escape.NoEscape?
    ensures s.at <= t.at <= |x|
    decreases |x| - s.at, 6
  {
    var body := BlankEnd(x, s.at);
    match escape
    case FunctionEscape => FunctionEscaped(x, scs, s)
    case DatetimeEscape(castSuffix) => Replaced(s, BehindBrace(x, body), DatetimeBody(x, body) + castSuffix)
    case OuterJoinEscape => CopyBody(x, scs, s.(at := body))
    case LikeEscape => Replaced(s, BehindBrace(x, body), "ESCAPE " + x[body..BraceAt(x, body)])
    case CallEscape => Called(x, s)
  }

  function Called(x: string, s: Scan): (t: Scan)
    requires s.at <= |x|
    ensures s.at <= t.at <= |x|
  {
    var returned := At(x, s.at, '?');
    var roles := if returned then WithRole(s.call.roles, |s.consumed|, ReturnValue) else s.call.roles;
    var first := |s.consumed| + if returned then 1 else 0;
    var list := CallOf(x, s.at, s.call.arguments, s.consumed);
    var returnValues := s.call.returnValues + if returned then 1 else 0;
    var name := ProcedureName(x, ReturnValueEnd(x, s.at));
    Scan(BehindBrace(x, list.end), s.output + Texts(CallHead(returnValues) + name), s.state, list.consumed,
         Call(true, returnValues, WithInputs(roles, first, |list.consumed|), name, list.arguments))
  }

  // The body of an escape up to and including the '}' that ends it.
  function CopyBody(x: string, scs: bool, s: Scan): (t: Scan)
    requires s.at <= |x|
    ensures s.at <= t.at <= |x|
    decreases |x| - s.at, 5
  {
    if s.at == |x| then s
    else if s.state.Normal? && x[s.at] == '}' then s.(at := s.at + 1)
    else CopyBody(x, scs, Step(x, scs, s))
  }

  // ---- {fn NAME(...)} ----

  // The scan behind the collected arguments, and the arguments, if there is room for them.
  datatype Collected = Collected(scan: Scan, arguments: Option<seq<seq<Item>>>)

  function AllCollected(s: Scan, arguments: seq<seq<Item>>, content: bool, room: nat): Collected {
    Collected(s, if |arguments| >= room then None
                 else if arguments == [] && !content then Some([])
                 else Some(arguments + [s.output]))
  }

  // From inside a call on, behind the arguments collected before; the output is that of the
  // argument being read, and `content` says whether it holds more than padding.
  function Collect(x: string, scs: bool, s: Scan, depth: nat, arguments: seq<seq<Item>>, content: bool, room: nat)
    : (c: Collected)
    requires s.at <= |x| && depth >= 1
    ensures s.at <= c.scan.at <= |x|
    ensures c.arguments.Some? ==> |c.arguments.value| <= room
    decreases |x| - s.at, 5
  {
    if s.at == |x| then AllCollected(s, arguments, content, room)
    else if s.state.Normal? && x[s.at] == '(' then
      Collect(x, scs, Replaced(s, s.at + 1, "("), depth + 1, arguments, content, room)
    else if s.state.Normal? && x[s.at] == ')' then
      if depth == 1 then AllCollected(s.(at := s.at + 1), arguments, content, room)
      else Collect(x, scs, Replaced(s, s.at + 1, ")"), depth - 1, arguments, content, room)
    else if s.state.Normal? && x[s.at] == ',' && depth == 1 then
      if |arguments| >= room then Collected(s, None)
      else Collect(x, scs, s.(at := s.at + 1, output := []), depth, arguments + [s.output], false, room)
    else
      Collect(x, scs, Step(x, scs, s), depth, arguments,
              content || (s.state.Normal? && x[s.at] != ' ' && x[s.at] != '\t'), room)
  }

  // The arguments of the call at the current '('; the output is what it was before.
  function CollectCall(x: string, scs: bool, s: Scan, room: nat): (c: Collected)
    requires At(x, s.at, '(')
    ensures s.at < c.scan.at <= |x|
    ensures c.arguments.Some? ==> |c.arguments.value| <= room
    decreases |x| - s.at, 1
  {
    var c := Collect(x, scs, s.(at := s.at + 1, output := []), 1, [], false, room);
    c.(scan := c.scan.(output := s.output))
  }

  function FunctionEscaped(x: string, scs: bool, s: Scan): (t: Scan)
    requires s.at <= |x|
    ensures s.at <= t.at <= |x|
    decreases |x| - s.at, 2
  {
    var start := BlankEnd(x, s.at);
    var nameEnd := NameEnd(x, start, MAX_FN_NAME, FN_NAME_STOP);
    var open := BlankEnd(x, nameEnd);
    if !At(x, open, '(') then Replaced(s, BehindBrace(x, open), x[start..nameEnd])
    else
      var c := CollectCall(x, scs, s.(at := open), MAX_FN_ARGUMENTS);
      if c.arguments.None? then c.scan
      else FunctionClosed(x, c.scan, FunctionText(x[start..nameEnd], c.arguments.value))
  }

  // The expanded call is written, and the '}' behind it consumed.
  function FunctionClosed(x: string, s: Scan, text: seq<Item>): (t: Scan)
    requires s.at <= |x|
    ensures s.at <= t.at <= |x|
  {
    var end := BlankEnd(x, s.at);
    s.(at := if At(x, end, '}') then end + 1 else end, output := s.output + text)
  }

  // ---- A whole text ----

  function ScanFrom(x: string, scs: bool, s: Scan): (t: Scan)
    requires s.at <= |x|
    ensures t.at == |x|
    decreases |x| - s.at
  {
    if s.at == |x| then s else ScanFrom(x, scs, Step(x, scs, s))
  }

  /** What the scanner makes of a text. */
  function Scanned(x: string, scs: bool): Scan {
    ScanFrom(x, scs, Started())
  }

  // Where its steps begin, in which state, and the state at the end.
  function ScanTrace(x: string, scs: bool, s: Scan): seq<(nat, LexState)>
    requires s.at <= |x|
    decreases |x| - s.at
  {
    [(s.at, s.state)] + if s.at == |x| then [] else ScanTrace(x, scs, Step(x, scs, s))
  }

  lemma ScanOn(x: string, scs: bool, s: Scan)
    requires s.at < |x|
    ensures ScanFrom(x, scs, s) == ScanFrom(x, scs, Step(x, scs, s))
  {
    hide Step;
  }

  lemma ScanEnds(x: string, scs: bool, s: Scan)
    requires s.at == |x|
    ensures ScanFrom(x, scs, s) == s
  {
  }

  lemma TraceOn(x: string, scs: bool, s: Scan)
    requires s.at <= |x|
    ensures ScanTrace(x, scs, s) ==
            [(s.at, s.state)] + if s.at == |x| then [] else ScanTrace(x, scs, Step(x, scs, s))
  {
    hide Step;
  }

  // ---- Runs of steps ----

  // Steps lead from one scan to the other, and none begins at a stopping character outside literals
  // and comments.
  predicate Reaches(x: string, scs: bool, s: Scan, t: Scan, stop: set<char>)
    decreases |x| - s.at
  {
    s == t ||
    (s.at < |x| && !(s.state.Normal? && x[s.at] in stop) && Reaches(x, scs, Step(x, scs, s), t, stop))
  }

  lemma OneStepReaches(x: string, scs: bool, s: Scan, stop: set<char>)
    requires s.at < |x| && !(s.state.Normal? && x[s.at] in stop)
    ensures Reaches(x, scs, s, Step(x, scs, s), stop)
  {
    hide Step;
  }

  lemma {:induction false} ReachesOn(x: string, scs: bool, s: Scan, t: Scan, u: Scan, stop: set<char>)
    requires Reaches(x, scs, s, t, stop) && Reaches(x, scs, t, u, stop)
    ensures Reaches(x, scs, s, u, stop)
    decreases |x| - s.at
  {
    hide Step;
    if s != t {
      ReachesOn(x, scs, Step(x, scs, s), t, u, stop);
    }
  }

  lemma {:induction false} ReachesInside(x: string, scs: bool, s: Scan, t: Scan, stop: set<char>)
    requires Reaches(x, scs, s, t, stop) && s.at <= |x|
    ensures s.at <= t.at <= |x|
    decreases |x| - s.at
  {
    hide Step;
    if s != t {
      ReachesInside(x, scs, Step(x, scs, s), t, stop);
    }
  }

  lemma {:induction false} ScanReaches(x: string, scs: bool, s: Scan, t: Scan, stop: set<char>)
    requires Reaches(x, scs, s, t, stop) && s.at <= |x| && t.at <= |x|
    ensures ScanFrom(x, scs, s) == ScanFrom(x, scs, t)
    decreases |x| - s.at
  {
    hide Step;
    if s != t {
      ScanReaches(x, scs, Step(x, scs, s), t, stop);
    }
  }

  lemma {:induction false} CopyReaches(x: string, scs: bool, s: Scan, t: Scan, stop: set<char>)
    requires Reaches(x, scs, s, t, stop) && '}' in stop && s.at <= |x| && t.at <= |x|
    ensures CopyBody(x, scs, s) == CopyBody(x, scs, t)
    decreases |x| - s.at
  {
    hide Step;
    if s != t {
      CopyReaches(x, scs, Step(x, scs, s), t, stop);
    }
  }

  // A collection that has met content goes on with it.
  lemma {:induction false} CollectReaches(x: string, scs: bool, s: Scan, t: Scan, stop: set<char>, depth: nat,
                                          arguments: seq<seq<Item>>, room: nat)
    requires Reaches(x, scs, s, t, stop) && {'(', ')', ','} <= stop && s.at <= |x| && t.at <= |x| && depth >= 1
    ensures Collect(x, scs, s, depth, arguments, true, room) == Collect(x, scs, t, depth, arguments, true, room)
    decreases |x| - s.at
  {
    hide Step, Collect, AllCollected, Replaced;
    if s != t {
      CollectHere(x, scs, s, depth, arguments, true, room);
      CollectReaches(x, scs, Step(x, scs, s), t, stop, depth, arguments, room);
    }
  }

  // ---- Nothing written is taken back ----

  lemma StepKeeps(x: string, scs: bool, s: Scan)
    requires s.at < |x|
    ensures s.output <= Step(x, scs, s).output
    decreases |x| - s.at, 4
  {
    hide EmptyValuesEnd, EscapeAt, KeywordAt, StatementIsInsert, OpenBrace, UnitItems, CanOpenAfter, ScanUnit, Texts;
    RewritesBy(x, s.at);
    if s.state.Normal? && x[s.at] == '{' {
      OpenBraceKeeps(x, scs, s);
    }
  }

  lemma OpenBraceKeeps(x: string, scs: bool, s: Scan)
    requires At(x, s.at, '{')
    ensures s.output <= OpenBrace(x, scs, s).output
    decreases |x| - s.at, 3
  {
    hide EscapeAt, PadEnd, BodyStart, Escaped, Texts;
    var escape := EscapeAt(x, PadEnd(x, s.at + 1));
    if !escape.NoEscape? {
      EscapedKeeps(x, scs, s.(at := BodyStart(x, s.at)), escape);
    }
  }

  lemma EscapedKeeps(x: string, scs: bool, s: Scan, escape: Escape)
    requires s.at <= |x| && !escape.NoEscape?
    ensures s.output <= Escaped(x, scs, s, escape).output
    decreases |x| - s.at, 6
  {
    hide DatetimeBody, BehindBrace, BlankEnd, CopyBody, FunctionEscaped, Called, Texts;
    match escape
    case FunctionEscape => FunctionKeeps(x, scs, s);
    case OuterJoinEscape => CopyBodyKeeps(x, scs, s.(at := BlankEnd(x, s.at)));
    case CallEscape => CalledKeeps(x, s);
    case _ =>
  }

  lemma FunctionKeeps(x: string, scs: bool, s: Scan)
    requires s.at <= |x|
    ensures s.output <= FunctionEscaped(x, scs, s).output
  {
    hide BlankEnd, NameEnd, BehindBrace, Collect, FunctionText, Texts;
  }

  lemma CalledKeeps(x: string, s: Scan)
    requires s.at <= |x|
    ensures s.output <= Called(x, s).output
  {
    hide CallOf, BehindBrace, ProcedureName, ReturnValueEnd, WithInputs, WithRole, Texts;
  }

  lemma CopyBodyKeeps(x: string, scs: bool, s: Scan)
    requires s.at <= |x|
    ensures s.output <= CopyBody(x, scs, s).output
    decreases |x| - s.at, 5
  {
    hide Step;
    if s.at < |x| && !(s.state.Normal? && x[s.at] == '}') {
      StepKeeps(x, scs, s);
      CopyBodyKeeps(x, scs, Step(x, scs, s));
    }
  }

  lemma {:induction false} ScanKeeps(x: string, scs: bool, s: Scan)
    requires s.at <= |x|
    ensures s.output <= ScanFrom(x, scs, s).output
    decreases |x| - s.at
  {
    hide Step;
    if s.at < |x| {
      StepKeeps(x, scs, s);
      ScanKeeps(x, scs, Step(x, scs, s));
    }
  }

  // ---- Numbering ----

  // The markers consumed so far stand before the current position, in order, and everything
  // written or recorded carries one of their numbers.
  ghost predicate Sound(x: string, s: Scan) {
    && s.at <= |x| && ConsumedMarkers(x, s.consumed, s.at) && Numbered(s.output, s.consumed)
    && ArgumentsUpTo(s.call.arguments, |s.consumed|)
  }

  // Output and recorded arguments only grow, and new markers stand at or behind the start.
  ghost predicate Grown(s: Scan, t: Scan) {
    && s.at <= t.at && s.output <= t.output && ConsumedSince(s.consumed, s.at, t.consumed)
    && s.call.arguments <= t.call.arguments
  }

  lemma GrownNot(s: Scan)
    ensures Grown(s, s)
  {
  }

  lemma GrownOn(s: Scan, t: Scan, u: Scan)
    requires Grown(s, t) && Grown(t, u)
    ensures Grown(s, u)
  {
    hide ConsumedSince;
    SinceJoined(s.consumed, s.at, t.consumed, t.at, u.consumed);
  }

  lemma MovedSound(x: string, s: Scan, at: nat)
    requires Sound(x, s) && s.at <= at <= |x|
    ensures Sound(x, s.(at := at)) && Grown(s, s.(at := at))
  {
  }

  lemma ReplacedSound(x: string, s: Scan, end: nat, text: string)
    requires Sound(x, s) && s.at <= end <= |x|
    ensures Sound(x, Replaced(s, end, text)) && Grown(s, Replaced(s, end, text))
  {
  }

  lemma PlainSound(x: string, scs: bool, s: Scan)
    requires Sound(x, s) && s.at < |x|
    ensures Sound(x, PlainStep(x, scs, s)) && Grown(s, PlainStep(x, scs, s))
  {
    hide ScanUnit, CanOpenAfter, ConsumedMarkers, ConsumedSince, Numbered;
    var t := PlainStep(x, scs, s);
    if s.state.Normal? && MarkerAt(x, s.at) {
      MarkerConsumed(x, s.consumed, s.at, s.at, t.at);
    } else {
      ConsumedEarlier(x, s.consumed, s.at, t.at);
      SinceNothing(s.consumed, s.at);
    }
    NumberedLater(s.output, s.consumed, t.consumed);
    var items := UnitItems(x, s.at, t.at, s.state, |s.consumed| + 1);
    UnitNumbered(x, s.at, t.at, s.state, s.consumed);
    NumberedJoined(s.output, items, t.consumed);
  }

  lemma UnitNumbered(x: string, i: nat, end: nat, state: LexState, consumed: seq<nat>)
    requires i < end <= |x|
    ensures Numbered(UnitItems(x, i, end, state, |consumed| + 1),
                     if state.Normal? && MarkerAt(x, i) then consumed + [i] else consumed)
  {
  }

  lemma CalledSound(x: string, s: Scan)
    requires Sound(x, s)
    ensures Sound(x, Called(x, s)) && Grown(s, Called(x, s))
  {
    hide ReadArguments, BehindBrace, CallOpen, ProcedureName, ReturnValueEnd, ConsumedMarkers, Numbered;
    hide ConsumedSince, ArgumentsUpTo, NumberedArguments;
    var list := CallOf(x, s.at, s.call.arguments, s.consumed);
    CallOfSound(x, s);
    var t := Called(x, s);
    ConsumedEarlier(x, list.consumed, list.end, t.at);
    SinceMeans(s.consumed, s.at, list.consumed);
    NumberedLater(s.output, s.consumed, list.consumed);
    var texts := Texts(CallHead(t.call.returnValues) + t.call.name);
    TextsNumbered(CallHead(t.call.returnValues) + t.call.name, list.consumed);
    NumberedJoined(s.output, texts, list.consumed);
  }

  lemma SinceMeans(before: seq<nat>, start: nat, after: seq<nat>)
    requires ConsumedSince(before, start, after)
    ensures before <= after
  {
  }

  lemma TextsNumbered(text: string, consumed: seq<nat>)
    ensures Numbered(Texts(text), consumed)
  {
  }

  lemma CallOfSound(x: string, s: Scan)
    requires Sound(x, s)
    ensures var list := CallOf(x, s.at, s.call.arguments, s.consumed);
            && ConsumedMarkers(x, list.consumed, list.end) && ConsumedSince(s.consumed, s.at, list.consumed)
            && s.call.arguments <= list.arguments && ArgumentsUpTo(list.arguments, |list.consumed|)
  {
    hide ReadArguments, CallOpen, ReturnValueEnd, ConsumedMarkers, ConsumedSince, NumberedArguments, Numbered;
    var counted := if At(x, s.at, '?') then s.consumed + [s.at] else s.consumed;
    var open := CallOpen(x, ReturnValueEnd(x, s.at));
    ReturnValueBehind(x, s.at);
    if At(x, s.at, '?') {
      MarkerConsumed(x, s.consumed, s.at, s.at, open);
      MarkerConsumed(x, s.consumed, s.at, s.at, open + 1);
    } else {
      ConsumedEarlier(x, s.consumed, s.at, open);
      ConsumedEarlier(x, s.consumed, s.at, open + 1);
      SinceNothing(s.consumed, s.at);
    }
    if At(x, open, '(') {
      NoArgumentsYet(s.call.arguments, |counted|);
      ReadArgumentsNumbered(x, open + 1, 1, s.call.arguments, counted, |s.call.arguments|, |counted|);
      SinceJoined(s.consumed, s.at, counted, open + 1,
                  CallOf(x, s.at, s.call.arguments, s.consumed).consumed);
    }
  }

  lemma ReturnValueBehind(x: string, i: nat)
    requires i <= |x|
    ensures At(x, i, '?') ==> i < ReturnValueEnd(x, i)
  {
  }

  /**
   One step, with every escape nested in it, numbers the markers it consumes on from those before,
   in the order of their positions, and only adds to the output.
   */
  lemma StepSound(x: string, scs: bool, s: Scan)
    requires Sound(x, s) && s.at < |x|
    ensures Sound(x, Step(x, scs, s)) && Grown(s, Step(x, scs, s))
    decreases |x| - s.at, 4
  {
    hide Sound, Grown, PlainStep, Replaced, EmptyValuesEnd, EscapeAt, KeywordAt, StatementIsInsert;
    RewritesBy(x, s.at);
    SoundInside(x, s);
    if s.state.Normal? && KeywordAt(x, s.at, "@@identity") {
      ReplacedSound(x, s, s.at + 10, "lastval()");
    } else if s.state.Normal? && x[s.at] == '{' {
      OpenBraceSound(x, scs, s);
    } else if s.state.Normal? && StatementIsInsert(x) && EmptyValuesAt(x, s.at) {
      ReplacedSound(x, s, EmptyValuesEnd(x, s.at), "DEFAULT VALUES");
    } else {
      PlainSound(x, scs, s);
    }
  }

  lemma SoundInside(x: string, s: Scan)
    requires Sound(x, s)
    ensures s.at <= |x|
  {
  }

  lemma OpenBraceSound(x: string, scs: bool, s: Scan)
    requires Sound(x, s) && At(x, s.at, '{')
    ensures Sound(x, OpenBrace(x, scs, s)) && Grown(s, OpenBrace(x, scs, s))
    decreases |x| - s.at, 3
  {
    hide Sound, Grown, Replaced, EscapeAt, PadEnd, BodyStart, Escaped;
    var escape := EscapeAt(x, PadEnd(x, s.at + 1));
    if escape.NoEscape? {
      ReplacedSound(x, s, s.at + 1, "{");
    } else {
      var body := s.(at := BodyStart(x, s.at));
      MovedSound(x, s, body.at);
      EscapedSound(x, scs, body, escape);
      GrownOn(s, body, Escaped(x, scs, body, escape));
    }
  }

  lemma EscapedSound(x: string, scs: bool, s: Scan, escape: Escape)
    requires s.at <= |x| && Sound(x, s) && !escape.NoEscape?
    ensures Sound(x, Escaped(x, scs, s, escape)) && Grown(s, Escaped(x, scs, s, escape))
    decreases |x| - s.at, 6
  {
    hide Sound, Grown, Replaced, DatetimeBody, BehindBrace, BlankEnd, FunctionEscaped, CopyBody, Called;
    var body := BlankEnd(x, s.at);
    match escape
    case FunctionEscape => FunctionEscapedSound(x, scs, s);
    case DatetimeEscape(castSuffix) => ReplacedSound(x, s, BehindBrace(x, body), DatetimeBody(x, body) + castSuffix);
    case OuterJoinEscape =>
      MovedSound(x, s, body);
      CopyBodySound(x, scs, s.(at := body));
      GrownOn(s, s.(at := body), CopyBody(x, scs, s.(at := body)));
    case LikeEscape => ReplacedSound(x, s, BehindBrace(x, body), "ESCAPE " + x[body..BraceAt(x, body)]);
    case CallEscape => CalledSound(x, s);
  }

  lemma CopyBodySound(x: string, scs: bool, s: Scan)
    requires s.at <= |x| && Sound(x, s)
    ensures Sound(x, CopyBody(x, scs, s)) && Grown(s, CopyBody(x, scs, s))
    decreases |x| - s.at, 5
  {
    hide Sound, Grown, Step;
    if s.at == |x| {
      GrownNot(s);
    } else if s.state.Normal? && x[s.at] == '}' {
      MovedSound(x, s, s.at + 1);
    } else {
      var t := Step(x, scs, s);
      StepSound(x, scs, s);
      CopyBodySound(x, scs, t);
      GrownOn(s, t, CopyBody(x, scs, t));
    }
  }

  // The arguments are numbered like the output, which is cleared in front of each of them.
  ghost predicate CollectedSound(x: string, s: Scan, c: Collected) {
    && s.at <= c.scan.at && Sound(x, c.scan) && ConsumedSince(s.consumed, s.at, c.scan.consumed)
    && s.call.arguments <= c.scan.call.arguments
    && (c.arguments.Some? ==> AllNumbered(c.arguments.value, c.scan.consumed))
  }

  lemma AllCollectedSound(x: string, s: Scan, at: nat, arguments: seq<seq<Item>>, content: bool, room: nat)
    requires Sound(x, s) && AllNumbered(arguments, s.consumed) && s.at <= at <= |x|
    ensures CollectedSound(x, s, AllCollected(s.(at := at), arguments, content, room))
  {
    hide AllNumbered, Numbered;
    MovedSound(x, s, at);
    NothingNumbered(s.consumed);
    AllNumberedAppended(arguments, s.output, s.consumed);
    SinceNothing(s.consumed, s.at);
  }

  lemma ClearedSound(x: string, s: Scan, at: nat)
    requires Sound(x, s) && s.at <= at <= |x|
    ensures Sound(x, s.(at := at, output := []))
  {
    MovedSound(x, s, at);
  }

  lemma CollectSoundOn(x: string, s: Scan, t: Scan, c: Collected)
    requires s.at <= t.at && ConsumedSince(s.consumed, s.at, t.consumed) && s.call.arguments <= t.call.arguments
    requires CollectedSound(x, t, c)
    ensures CollectedSound(x, s, c)
  {
    hide Sound, AllNumbered;
  }

  lemma CollectSound(x: string, scs: bool, s: Scan, depth: nat, arguments: seq<seq<Item>>, content: bool, room: nat)
    requires s.at <= |x| && depth >= 1 && Sound(x, s) && AllNumbered(arguments, s.consumed)
    ensures CollectedSound(x, s, Collect(x, scs, s, depth, arguments, content, room))
    decreases |x| - s.at, 5
  {
    hide Sound, Grown, Replaced, Step, AllNumbered, AllCollected, CollectedSound, Collect, ConsumedSince;
    CollectHere(x, scs, s, depth, arguments, content, room);
    var c := Collect(x, scs, s, depth, arguments, content, room);
    SinceNothing(s.consumed, s.at);
    if s.at == |x| {
      AllCollectedSound(x, s, s.at, arguments, content, room);
    } else if s.state.Normal? && x[s.at] == ')' && depth == 1 {
      AllCollectedSound(x, s, s.at + 1, arguments, content, room);
    } else if s.state.Normal? && x[s.at] in {'(', ')'} {
      var t := Replaced(s, s.at + 1, [x[s.at]]);
      ReplacedSound(x, s, s.at + 1, [x[s.at]]);
      ReplacedFields(s, s.at + 1, [x[s.at]]);
      CollectSound(x, scs, t, if x[s.at] == '(' then depth + 1 else depth - 1, arguments, content, room);
      CollectSoundOn(x, s, t, c);
    } else if s.state.Normal? && x[s.at] == ',' && depth == 1 {
      if |arguments| >= room {
        NothingCollectedSound(x, s);
      } else {
        var t := s.(at := s.at + 1, output := []);
        ClearedSound(x, s, t.at);
        OutputNumbered(x, s);
        AllNumberedAppended(arguments, s.output, s.consumed);
        CollectSound(x, scs, t, depth, arguments + [s.output], false, room);
        CollectSoundOn(x, s, t, c);
      }
    } else {
      var t := Step(x, scs, s);
      StepSound(x, scs, s);
      GrownMeans(s, t);
      AllNumberedLater(arguments, s.consumed, t.consumed);
      var content' := content || (s.state.Normal? && x[s.at] != ' ' && x[s.at] != '\t');
      CollectSound(x, scs, t, depth, arguments, content', room);
      CollectSoundOn(x, s, t, c);
    }
  }

  // One turn of the collection.
  lemma CollectHere(x: string, scs: bool, s: Scan, depth: nat, arguments: seq<seq<Item>>, content: bool, room: nat)
    requires s.at <= |x| && depth >= 1
    ensures Collect(x, scs, s, depth, arguments, content, room) ==
            if s.at == |x| then AllCollected(s, arguments, content, room)
            else if s.state.Normal? && x[s.at] == '(' then
              Collect(x, scs, Replaced(s, s.at + 1, [x[s.at]]), depth + 1, arguments, content, room)
            else if s.state.Normal? && x[s.at] == ')' then
              if depth == 1 then AllCollected(s.(at := s.at + 1), arguments, content, room)
              else Collect(x, scs, Replaced(s, s.at + 1, [x[s.at]]), depth - 1, arguments, content, room)
            else if s.state.Normal? && x[s.at] == ',' && depth == 1 then
              if |arguments| >= room then Collected(s, None)
              else Collect(x, scs, s.(at := s.at + 1, output := []), depth, arguments + [s.output], false, room)
            else
              Collect(x, scs, Step(x, scs, s), depth, arguments,
                      content || (s.state.Normal? && x[s.at] != ' ' && x[s.at] != '\t'), room)
  {
    hide Step, AllCollected, Texts;
  }

  lemma ReplacedFields(s: Scan, end: nat, text: string)
    ensures var t := Replaced(s, end, text);
            t.at == end && t.consumed == s.consumed && t.call == s.call && t.state == s.state
  {
  }

  lemma OutputNumbered(x: string, s: Scan)
    requires Sound(x, s)
    ensures Numbered(s.output, s.consumed)
  {
  }

  lemma NothingCollectedSound(x: string, s: Scan)
    requires Sound(x, s)
    ensures CollectedSound(x, s, Collected(s, None))
  {
    SinceNothing(s.consumed, s.at);
  }

  lemma GrownMeans(s: Scan, t: Scan)
    requires Grown(s, t)
    ensures s.at <= t.at && s.consumed <= t.consumed && ConsumedSince(s.consumed, s.at, t.consumed)
    ensures s.call.arguments <= t.call.arguments
  {
  }

  lemma CollectCallSound(x: string, scs: bool, s: Scan, room: nat)
    requires At(x, s.at, '(') && Sound(x, s)
    ensures var c := CollectCall(x, scs, s, room);
            && Sound(x, c.scan) && Grown(s, c.scan) && c.scan.output == s.output
            && (c.arguments.Some? ==> AllNumbered(c.arguments.value, c.scan.consumed))
    decreases |x| - s.at, 1
  {
    hide AllNumbered, Collect, ConsumedMarkers;
    var t := s.(at := s.at + 1, output := []);
    ClearedSound(x, s, t.at);
    NothingNumbered(t.consumed);
    CollectSound(x, scs, t, 1, [], false, room);
    var c := Collect(x, scs, t, 1, [], false, room);
    NumberedLater(s.output, s.consumed, c.scan.consumed);
  }

  lemma FunctionEscapedSound(x: string, scs: bool, s: Scan)
    requires s.at <= |x| && Sound(x, s)
    ensures Sound(x, FunctionEscaped(x, scs, s)) && Grown(s, FunctionEscaped(x, scs, s))
    decreases |x| - s.at, 2
  {
    hide Sound, Grown, Replaced, BlankEnd, NameEnd, BehindBrace, CollectCall, FunctionText, AllNumbered, FunctionClosed;
    var start := BlankEnd(x, s.at);
    var nameEnd := NameEnd(x, start, MAX_FN_NAME, FN_NAME_STOP);
    var open := BlankEnd(x, nameEnd);
    if !At(x, open, '(') {
      ReplacedSound(x, s, BehindBrace(x, open), x[start..nameEnd]);
    } else {
      var called := s.(at := open);
      MovedSound(x, s, open);
      CollectCallSound(x, scs, called, MAX_FN_ARGUMENTS);
      var c := CollectCall(x, scs, called, MAX_FN_ARGUMENTS);
      GrownOn(s, called, c.scan);
      if c.arguments.Some? {
        var text := FunctionText(x[start..nameEnd], c.arguments.value);
        FunctionTextNumbered(x[start..nameEnd], c.arguments.value, c.scan.consumed);
        ClosedSound(x, c.scan, text);
        GrownOn(s, c.scan, FunctionClosed(x, c.scan, text));
      }
    }
  }

  lemma ClosedSound(x: string, s: Scan, text: seq<Item>)
    requires s.at <= |x| && Sound(x, s) && Numbered(text, s.consumed)
    ensures Sound(x, FunctionClosed(x, s, text)) && Grown(s, FunctionClosed(x, s, text))
  {
    hide BlankEnd, Numbered;
    MovedSound(x, s, FunctionClosed(x, s, text).at);
    NumberedJoined(s.output, text, s.consumed);
  }

  lemma {:induction false} ScanFromSound(x: string, scs: bool, s: Scan)
    requires s.at <= |x| && Sound(x, s)
    ensures Sound(x, ScanFrom(x, scs, s)) && Grown(s, ScanFrom(x, scs, s))
    decreases |x| - s.at
  {
    hide Sound, Grown, Step;
    if s.at == |x| {
      GrownNot(s);
    } else {
      var t := Step(x, scs, s);
      StepSound(x, scs, s);
      ScanFromSound(x, scs, t);
      GrownOn(s, t, ScanFrom(x, scs, t));
    }
  }

  /**
   Every marker consumed in a text, however deep in an escape, gets the next number, in the order
   of the positions; what is written or recorded carries the number of its own '?'.
   */
  lemma ScannedSound(x: string, scs: bool)
    ensures Sound(x, Scanned(x, scs)) && Scanned(x, scs).at == |x|
  {
    hide ScanFrom;
    ScanFromSound(x, scs, Started());
  }
}
