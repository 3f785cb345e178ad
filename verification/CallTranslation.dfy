/** Procedure-call escapes as ODBC writes them, in any spelling, and what the scanner makes of a whole one. */
module CallTranslation {
  import opened Ascii
  import opened CallReading
  import opened EscapeModel
  import opened EscapeSpelling
  import opened NestedEscapes
  import opened Options
  import opened ScannerModel
  import opened SqlLexer

  // The arguments of a call, or nothing where there is not even a list.
  function ListText(list: Option<seq<CallArgument>>): string {
    if list.Some? then "(" + WrittenArguments(list.value) else ""
  }

  // How a call is spelled: the blanks in it, and its keyword in some letter case.
  datatype Spelling = Spelling(pad: string, before: string, after: string, word: string, blanks: string, gap: string)

  predicate Spelled(p: Spelling) {
    && Pads(p.pad) && Blanks(p.before) && Blanks(p.after) && SameIgnoringCase(p.word, "call")
    && Blanks(p.blanks) && p.blanks != "" && Blanks(p.gap)
  }

  // Up to the keyword: with a question mark and an equals sign when the call returns a value.
  function Front(p: Spelling, valued: bool): string {
    "{" + (p.pad + (if valued then "?" + (p.before + ("=" + p.after)) else ""))
  }

  function CallText(p: Spelling, valued: bool, name: string, list: Option<seq<CallArgument>>): string {
    Front(p, valued) + (p.word + (p.blanks + (name + (p.gap + (ListText(list) + "}")))))
  }

  predicate CallName(name: string) {
    0 < |name| <= MAX_CALL_NAME && forall c <- name :: c !in CALL_NAME_STOP
  }

  lemma CallParts(x: string, i: nat, p: Spelling, valued: bool, name: string, list: Option<seq<CallArgument>>)
    requires StandsAt(CallText(p, valued, name, list), x, i)
    ensures var k := i + |Front(p, valued)|;
            var n := k + |p.word| + |p.blanks|;
            var open := n + |name| + |p.gap|;
            && StandsAt(Front(p, valued), x, i) && StandsAt(p.word, x, k) && StandsAt(p.blanks, x, k + |p.word|)
            && StandsAt(name, x, n) && StandsAt(p.gap, x, n + |name|)
            && StandsAt(ListText(list) + "}", x, open) && At(x, open + |ListText(list)|, '}')
            && i + |CallText(p, valued, name, list)| == open + |ListText(list)| + 1
  {
    hide StandsAt, ListText, Front;
    var k := i + |Front(p, valued)|;
    var behind := name + (p.gap + (ListText(list) + "}"));
    StandsInParts(Front(p, valued), p.word + (p.blanks + behind), x, i);
    StandsInParts(p.word, p.blanks + behind, x, k);
    StandsInParts(p.blanks, behind, x, k + |p.word|);
    NameParts(x, k + |p.word| + |p.blanks|, name, p.gap, list);
  }

  lemma NameParts(x: string, n: nat, name: string, gap: string, list: Option<seq<CallArgument>>)
    requires StandsAt(name + (gap + (ListText(list) + "}")), x, n)
    ensures var open := n + |name| + |gap|;
            && StandsAt(name, x, n) && StandsAt(gap, x, n + |name|)
            && StandsAt(ListText(list) + "}", x, open) && At(x, open + |ListText(list)|, '}')
  {
    hide StandsAt, ListText;
    var text, open := ListText(list), n + |name| + |gap|;
    StandsInParts(name, gap + (text + "}"), x, n);
    StandsInParts(gap, text + "}", x, n + |name|);
    StandsInParts(text, "}", x, open);
    StandsCharacter("}", x, open + |text|, 0);
  }

  lemma ListStands(x: string, i: nat, list: Option<seq<CallArgument>>)
    requires StandsAt(ListText(list) + "}", x, i)
    ensures if list.None? then At(x, i, '}') && |ListText(list)| == 0
            else At(x, i, '(') && StandsAt(WrittenArguments(list.value), x, i + 1)
                 && |ListText(list)| == |WrittenArguments(list.value)| + 1
  {
    hide StandsAt, WrittenArguments;
    StandsCharacter(ListText(list) + "}", x, i, 0);
    if list.Some? {
      StandsInParts(ListText(list), "}", x, i);
      StandsInParts("(", WrittenArguments(list.value), x, i);
    }
  }

  // Neither a question mark nor the keyword of a call is the keyword of another escape.
  lemma CallEscapeStands(x: string, i: nat, word: string)
    requires At(x, i, '?') || (SameIgnoringCase(word, "call") && StandsAt(word, x, i) && WordEnds(x, i + 4))
    ensures EscapeAt(x, i) == CallEscape
  {
    if !At(x, i, '?') {
      KeywordInAnyCase(x, i, "call", word);
      StandsCharacter(word, x, i, 0);
      assert Lower(x[i]) == 'c';
    }
    hide StandsAt, KeywordAt, SameIgnoringCase;
    NotKeyword(x, i, "fn", 0);
    NotKeyword(x, i, "ts", 0);
    NotKeyword(x, i, "d", 0);
    NotKeyword(x, i, "t", 0);
    NotKeyword(x, i, "oj", 0);
    NotKeyword(x, i, "escape", 0);
  }

  lemma {:induction false} CallNameRead(x: string, i: nat, name: string, limit: nat)
    requires StandsAt(name, x, i) && |name| <= limit && i + |name| < |x| && x[i + |name|] in CALL_NAME_STOP
    requires forall c <- name :: c !in CALL_NAME_STOP
    ensures NameEnd(x, i, limit, CALL_NAME_STOP) == i + |name|
    decreases |name|
  {
    hide StandsAt, NameEnd;
    if name != "" {
      FirstOff(x, i, name);
      assert name[0] in name;
      CallNameRead(x, i + 1, name[1..], limit - 1);
    }
    NameStep(x, i, limit, CALL_NAME_STOP);
  }

  // Behind the keyword stand the name and, behind blanks, the opening parenthesis or the brace.
  lemma CallOpens(x: string, k: nat, p: Spelling, name: string)
    requires Spelled(p) && CallName(name) && StandsAt(p.word, x, k) && StandsAt(p.blanks, x, k + |p.word|)
    requires var n := k + |p.word| + |p.blanks|;
             var open := n + |name| + |p.gap|;
             && StandsAt(name, x, n) && StandsAt(p.gap, x, n + |name|) && (At(x, open, '(') || At(x, open, '}'))
    ensures CallOpen(x, k) == k + |p.word| + |p.blanks| + |name| + |p.gap| && ProcedureName(x, k) == name
  {
    hide StandsAt, KeywordAt, NameEnd, BlankEnd, Blanks, Pads;
    var n := k + |p.word| + |p.blanks|;
    NameApart(x, n, name);
    CallKeyword(x, k, p);
    BlanksSkipped(x, k + |p.word|, p.blanks);
    GapStopsName(x, n + |name|, p.gap);
    CallNameRead(x, n, name, MAX_CALL_NAME);
    BlanksSkipped(x, n + |name|, p.gap);
    StandsInside(name, x, n);
  }

  lemma NameApart(x: string, i: nat, name: string)
    requires CallName(name) && StandsAt(name, x, i)
    ensures i < |x| && !Blank(x[i])
  {
    StandsCharacter(name, x, i, 0);
    assert name[0] in name;
  }

  lemma CallKeyword(x: string, k: nat, p: Spelling)
    requires Spelled(p) && StandsAt(p.word, x, k) && StandsAt(p.blanks, x, k + |p.word|)
    ensures KeywordAt(x, k, "call") && |p.word| == 4 && WordEnds(x, k + 4) && k < |x| && Lower(x[k]) == 'c'
  {
    StandsCharacter(p.blanks, x, k + |p.word|, 0);
    assert p.blanks[0] in p.blanks;
    StandsCharacter(p.word, x, k, 0);
    KeywordInAnyCase(x, k, "call", p.word);
  }

  lemma GapStopsName(x: string, i: nat, gap: string)
    requires Blanks(gap) && StandsAt(gap, x, i) && (At(x, i + |gap|, '(') || At(x, i + |gap|, '}'))
    ensures i < |x| && x[i] in CALL_NAME_STOP
  {
    if gap != "" {
      StandsCharacter(gap, x, i, 0);
      assert gap[0] in gap;
    }
  }

  // The sign of a returned value is read up to the keyword.
  lemma ReturnRead(x: string, i: nat, before: string, after: string)
    requires Blanks(before) && Blanks(after) && StandsAt("?" + (before + ("=" + after)), x, i)
    requires var k := i + 2 + |before| + |after|; k < |x| && !Blank(x[k])
    ensures At(x, i, '?') && ReturnValueEnd(x, i) == i + 2 + |before| + |after|
  {
    hide StandsAt, BlankEnd, Blanks;
    var e := i + 1 + |before|;
    StandsInParts("?", before + ("=" + after), x, i);
    StandsInParts(before, "=" + after, x, i + 1);
    StandsInParts("=", after, x, e);
    StandsCharacter("?", x, i, 0);
    StandsCharacter("=", x, e, 0);
    assert !Blank('=');
    BlanksSkipped(x, i + 1, before);
    BlanksSkipped(x, e + 1, after);
  }

  lemma FrontParts(x: string, i: nat, p: Spelling, valued: bool)
    requires StandsAt(Front(p, valued), x, i)
    ensures At(x, i, '{') && StandsAt(p.pad, x, i + 1)
    ensures valued ==> StandsAt("?" + (p.before + ("=" + p.after)), x, i + 1 + |p.pad|)
    ensures i + |Front(p, valued)| == i + 1 + |p.pad| + if valued then 2 + |p.before| + |p.after| else 0
  {
    var sign := if valued then "?" + (p.before + ("=" + p.after)) else "";
    assert Front(p, valued) == "{" + (p.pad + sign);
    hide StandsAt, Front;
    StandsInParts("{", p.pad + sign, x, i);
    StandsInParts(p.pad, sign, x, i + 1);
    StandsCharacter("{", x, i, 0);
  }

  lemma FrontRead(x: string, i: nat, p: Spelling, valued: bool)
    requires Spelled(p) && StandsAt(Front(p, valued), x, i)
    requires StandsAt(p.word, x, i + |Front(p, valued)|) && StandsAt(p.blanks, x, i + |Front(p, valued)| + |p.word|)
    ensures var body := i + 1 + |p.pad|;
            && At(x, i, '{') && EscapeAt(x, PadEnd(x, i + 1)) == CallEscape && BodyStart(x, i) == body < |x|
            && ReturnValueEnd(x, body) == i + |Front(p, valued)| && (At(x, body, '?') <==> valued)
  {
    hide StandsAt, EscapeAt, PadEnd, ReturnValueEnd, Blanks, Pads, SameIgnoringCase, Front, WordEnds, KeywordAt;
    var body := i + 1 + |p.pad|;
    FrontParts(x, i, p, valued);
    CallKeyword(x, i + |Front(p, valued)|, p);
    if valued {
      ReturnRead(x, body, p.before, p.after);
    } else {
      NoReturn(x, body);
    }
    PadsSkipped(x, i + 1, p.pad);
    CallEscapeStands(x, body, p.word);
  }

  lemma NoReturn(x: string, i: nat)
    requires i <= |x|
    ensures !At(x, i, '?') ==> ReturnValueEnd(x, i) == i
  {
  }

  /**
   One step reads a whole call, with whatever blanks and in whatever letter case it is spelled: the
   text becomes a SELECT of the procedure, of its value when it or a call before it returns one and of
   its rows otherwise; name and arguments are recorded as they were written, and a returned value takes
   the first marker as its own.
   */
  lemma CallStep(x: string, scs: bool, s: Scan, p: Spelling, valued: bool, name: string,
                 list: Option<seq<CallArgument>>)
    requires s.state.Normal? && Spelled(p) && CallName(name) && StandsAt(CallText(p, valued, name, list), x, s.at)
    requires list.Some? ==>
               && PlainArguments(list.value, |s.consumed| + if valued then 1 else 0)
               && |s.call.arguments| + |list.value| <= QUERY_MAX_CALL_ARGUMENTS
    ensures var t := Step(x, scs, s);
            && t.at == s.at + |CallText(p, valued, name, list)| && t.state.Normal?
            && t.output ==
               s.output + Texts((if valued || s.call.returnValues > 0 then "SELECT " else "SELECT * FROM ") + name)
            && t.call.isCall && t.call.name == name
            && t.call.returnValues == s.call.returnValues + (if valued then 1 else 0)
            && t.call.arguments == s.call.arguments + (if list.Some? then list.value else [])
            && (valued ==> s.consumed + [s.at + 1 + |p.pad|] <= t.consumed)
            && |t.call.roles| == |s.call.roles|
            && (valued && |s.consumed| < |s.call.roles| ==> t.call.roles[|s.consumed|] == ReturnValue)
  {
    hide Step, StandsAt, PlainArguments, WrittenArguments, EscapeAt, PadEnd, ReturnValueEnd, BodyStart, Texts, Called;
    hide ReadArguments, CallName, CallText, CallOpen, ProcedureName, ListText, CallOf, Spelled, Front;
    var k := s.at + |Front(p, valued)|;
    var open, body := k + |p.word| + |p.blanks| + |name| + |p.gap|, s.(at := s.at + 1 + |p.pad|);
    CallParts(x, s.at, p, valued, name, list);
    ListStands(x, open, list);
    FrontRead(x, s.at, p, valued);
    CallOpens(x, k, p, name);
    EscapeOpens(x, scs, s, CallEscape);
    CallListRead(x, body.at, k, open, list, s.call.arguments, s.consumed);
    assert Step(x, scs, s) == Called(x, body);
    BraceHere(x, open + |ListText(list)|);
    CalledIs(x, body, valued, name);
  }

  // What a call leaves, from what its arguments leave.
  lemma CalledIs(x: string, s: Scan, valued: bool, name: string)
    requires s.at <= |x| && (At(x, s.at, '?') <==> valued)
    requires ProcedureName(x, ReturnValueEnd(x, s.at)) == name
    requires valued ==> s.consumed + [s.at] <= CallOf(x, s.at, s.call.arguments, s.consumed).consumed
    ensures var t, list := Called(x, s), CallOf(x, s.at, s.call.arguments, s.consumed);
            && t.at == BehindBrace(x, list.end) && t.state == s.state && t.consumed == list.consumed
            && t.output ==
               s.output + Texts((if valued || s.call.returnValues > 0 then "SELECT " else "SELECT * FROM ") + name)
            && t.call.isCall && t.call.name == name
            && t.call.returnValues == s.call.returnValues + (if valued then 1 else 0)
            && t.call.arguments == list.arguments && |t.call.roles| == |s.call.roles|
            && (valued && |s.consumed| < |s.call.roles| ==> t.call.roles[|s.consumed|] == ReturnValue)
  {
    hide CallOf, ProcedureName, ReturnValueEnd, Texts, BehindBrace;
  }

  lemma CallListRead(x: string, body: nat, k: nat, open: nat, list: Option<seq<CallArgument>>,
                     before: seq<CallArgument>, consumed: seq<nat>)
    requires body <= |x| && ReturnValueEnd(x, body) == k && CallOpen(x, k) == open
    requires var number := |consumed| + if At(x, body, '?') then 1 else 0;
             if list.None? then At(x, open, '}')
             else
               && At(x, open, '(') && StandsAt(WrittenArguments(list.value), x, open + 1)
               && PlainArguments(list.value, number) && |before| + |list.value| <= QUERY_MAX_CALL_ARGUMENTS
    ensures var read := CallOf(x, body, before, consumed);
            && read.end == open + (if list.None? then 0 else |WrittenArguments(list.value)| + 1)
            && read.arguments == before + (if list.Some? then list.value else [])
            && (At(x, body, '?') ==> consumed + [body] <= read.consumed)
  {
    hide ReadArguments, ReturnValueEnd, CallOpen, StandsAt, WrittenArguments, PlainArguments;
    var counted := if At(x, body, '?') then consumed + [body] else consumed;
    if list.Some? {
      WrittenCallIsRead(x, open + 1, list.value, before, counted);
      OnlyMoreConsumed(x, open + 1, 1, before, counted);
    }
  }

  lemma {:induction false} OnlyMoreConsumed(x: string, i: nat, depth: nat, arguments: seq<CallArgument>,
                                            consumed: seq<nat>)
    requires i <= |x| && depth >= 1
    ensures consumed <= ReadArguments(x, i, depth, arguments, consumed).consumed
    decreases |x| - i
  {
    hide ArgumentAt, LiteralEnd;
    var start := BlankEnd(x, i);
    if start < |x| && x[start] == ',' {
      OnlyMoreConsumed(x, start + 1, depth, arguments, consumed);
    } else if start < |x| && x[start] != ')' {
      var (argument, end, depth') := ArgumentAt(x, start, depth, |consumed|);
      OnlyMoreConsumed(x, BehindComma(x, BlankEnd(x, end)), depth', Recorded(arguments, argument),
                       if MarkerAt(x, start) then consumed + [start] else consumed);
    }
  }

  lemma BraceHere(x: string, i: nat)
    requires At(x, i, '}')
    ensures BehindBrace(x, i) == i + 1
  {
  }
}
