/** The arguments of a procedure call, written as a list and read back by the scanner's call parser. */
module CallReading {
  import opened ScannerModel
  import opened SqlLexer

  // ---- What is written ----

  // Parentheses are balanced and no comma stands outside them.
  predicate Nested(s: string, depth: nat) {
    if s == "" then depth == 1
    else
      depth >= 1 && !(depth == 1 && s[0] in {',', ')'})
      && Nested(s[1..], depth + if s[0] == '(' then 1 else if s[0] == ')' then -1 else 0)
  }

  predicate CastText(cast: string) {
    cast == "" || (2 <= |cast| < QUERY_MAX_CAST_LENGTH && cast[..2] == "::"
                   && forall k :: 2 <= k < |cast| ==> IdentifierPart(cast[k]))
  }

  // An argument that the buffers hold: the marker after `number` others, or a trimmed literal.
  predicate PlainArgument(argument: CallArgument, number: nat) {
    if argument.parameterNumber > 0 then
      argument.parameterNumber == number + 1 && argument.literalText == "" && CastText(argument.castSuffix)
    else
      var s := argument.literalText;
      && argument.castSuffix == "" && 0 < |s| < QUERY_MAX_CALL_LITERAL && Nested(s, 1)
      && !Blank(s[0]) && s[|s| - 1] !in {' ', '\t'} && !MarkerAt(s, 0)
  }

  function MarkerCount(argument: CallArgument): nat {
    if argument.parameterNumber > 0 then 1 else 0
  }

  predicate PlainArguments(arguments: seq<CallArgument>, number: nat) {
    arguments == [] ||
    (PlainArgument(arguments[0], number) && PlainArguments(arguments[1..], number + MarkerCount(arguments[0])))
  }

  function WrittenArgument(argument: CallArgument): string {
    if argument.parameterNumber > 0 then "?" + argument.castSuffix else argument.literalText
  }

  function WrittenArguments(arguments: seq<CallArgument>): (s: string)
    ensures s != ""
  {
    if arguments == [] then ")"
    else if |arguments| == 1 then WrittenArgument(arguments[0]) + ")"
    else WrittenArgument(arguments[0]) + ", " + WrittenArguments(arguments[1..])
  }

  lemma {:induction false} LiteralRead(x: string, i: nat, s: string, room: nat, depth: nat)
    requires StandsAt(s, x, i) && Nested(s, depth) && |s| <= room
    requires At(x, i + |s|, ',') || At(x, i + |s|, ')')
    ensures LiteralEnd(x, i, room, depth) == (i + |s|, 1)
    decreases |s|
  {
    if s != "" {
      assert x[i] == x[i..i + |s|][0] == s[0];
      assert x[i + 1..i + 1 + |s[1..]|] == x[i..i + |s|][1..] == s[1..];
      LiteralRead(x, i + 1, s[1..], room - 1, depth + if s[0] == '(' then 1 else if s[0] == ')' then -1 else 0);
    }
  }

  lemma {:induction false} CastRead(x: string, i: nat, end: nat, limit: nat)
    requires i <= end < |x| && end - i <= limit && !IdentifierPart(x[end])
    requires forall k :: i <= k < end ==> IdentifierPart(x[k])
    ensures CastEnd(x, i, limit) == end
    decreases limit
  {
    if i < end {
      CastRead(x, i + 1, end, limit - 1);
    }
  }

  lemma StandsCharacters(s: string, x: string, i: nat)
    requires StandsAt(s, x, i)
    ensures forall k :: 0 <= k < |s| ==> x[i + k] == s[k]
  {
    forall k | 0 <= k < |s| ensures x[i + k] == s[k] {
      StandsCharacter(s, x, i, k);
    }
  }

  // A cast that stands directly behind a marker, in front of a character that ends it.
  lemma CastTextRead(x: string, i: nat, cast: string)
    requires CastText(cast) && StandsAt(cast, x, i)
    requires At(x, i + |cast|, ',') || At(x, i + |cast|, ')')
    ensures CastAt(x, i) == cast && BlankEnd(x, i) == i
  {
    hide CastEnd;
    StandsCharacters(cast, x, i);
    if cast != "" {
      assert cast[0] == cast[..2][0] && cast[1] == cast[..2][1];
      forall k | i + 2 <= k < i + |cast| ensures IdentifierPart(x[k]) {
        assert x[k] == cast[k - i];
      }
      CastRead(x, i + 2, i + |cast|, QUERY_MAX_CAST_LENGTH - 3);
    }
  }

  lemma MarkerArgumentRead(x: string, i: nat, argument: CallArgument, number: nat)
    requires PlainArgument(argument, number) && argument.parameterNumber > 0
    requires StandsAt(WrittenArgument(argument), x, i)
    requires var end := i + |WrittenArgument(argument)|; At(x, end, ',') || At(x, end, ')')
    ensures MarkerAt(x, i)
    ensures ArgumentAt(x, i, 1, number) == (argument, i + |WrittenArgument(argument)|, 1)
  {
    hide CastAt, BlankEnd, CastText, StandsAt, ArgumentAt;
    var cast := argument.castSuffix;
    StandsInParts("?", cast, x, i);
    StandsCharacter("?", x, i, 0);
    CastTextRead(x, i + 1, cast);
    CastStart(x, i + 1, cast);
    MarkerArgumentAt(x, i, number);
  }

  lemma MarkerArgumentAt(x: string, i: nat, number: nat)
    requires MarkerAt(x, i)
    ensures var cast := CastAt(x, BlankEnd(x, i + 1));
            ArgumentAt(x, i, 1, number) == (CallArgument(number + 1, cast, ""), BlankEnd(x, i + 1) + |cast|, 1)
  {
    hide CastAt, BlankEnd;
  }

  lemma CastStart(x: string, i: nat, cast: string)
    requires CastText(cast) && StandsAt(cast, x, i)
    requires At(x, i + |cast|, ',') || At(x, i + |cast|, ')')
    ensures !At(x, i, '?')
  {
    if cast != "" {
      StandsCharacter(cast, x, i, 0);
      assert cast[0] == cast[..2][0];
    }
  }

  lemma LiteralArgumentRead(x: string, i: nat, argument: CallArgument, number: nat)
    requires PlainArgument(argument, number) && argument.parameterNumber == 0
    requires StandsAt(WrittenArgument(argument), x, i)
    requires var end := i + |WrittenArgument(argument)|; At(x, end, ',') || At(x, end, ')')
    ensures !Blank(x[i]) && x[i] !in {',', ')'} && !MarkerAt(x, i)
    ensures ArgumentAt(x, i, 1, number) == (argument, i + |WrittenArgument(argument)|, 1)
  {
    hide LiteralEnd;
    var s := argument.literalText;
    StandsCharacters(s, x, i);
    LiteralRead(x, i, s, QUERY_MAX_CALL_LITERAL - 1, 1);
    assert x[i] == s[0] && (|s| > 1 ==> x[i + 1] == s[1]);
    assert At(x, i + 1, '?') <==> At(s, 1, '?');
    hide Nested, MarkerAt;
    assert TrimPadding(s) == s;
  }

  lemma ArgumentRead(x: string, i: nat, argument: CallArgument, number: nat)
    requires PlainArgument(argument, number) && StandsAt(WrittenArgument(argument), x, i)
    requires var end := i + |WrittenArgument(argument)|; At(x, end, ',') || At(x, end, ')')
    ensures !Blank(x[i]) && x[i] !in {',', ')'} && (MarkerAt(x, i) <==> argument.parameterNumber > 0)
    ensures ArgumentAt(x, i, 1, number) == (argument, i + |WrittenArgument(argument)|, 1)
  {
    hide ArgumentAt, PlainArgument, WrittenArgument, StandsAt;
    if argument.parameterNumber > 0 {
      MarkerArgumentRead(x, i, argument, number);
    } else {
      LiteralArgumentRead(x, i, argument, number);
    }
  }

  /** Arguments are added behind those before, and never more than 32 are kept. */
  lemma {:induction false} ArgumentsAreCapped(x: string, i: nat, depth: nat, before: seq<CallArgument>,
                                              consumed: seq<nat>)
    requires i <= |x| && depth >= 1 && |before| <= 32
    ensures before <= ReadArguments(x, i, depth, before, consumed).arguments
    ensures |ReadArguments(x, i, depth, before, consumed).arguments| <= 32
    decreases |x| - i
  {
    hide ArgumentAt, LiteralEnd;
    var start := BlankEnd(x, i);
    if start < |x| && x[start] == ',' {
      ArgumentsAreCapped(x, start + 1, depth, before, consumed);
    } else if start < |x| && x[start] != ')' {
      var (argument, end, depth') := ArgumentAt(x, start, depth, |consumed|);
      ArgumentsAreCapped(x, BehindComma(x, BlankEnd(x, end)), depth', Recorded(before, argument),
                         if MarkerAt(x, start) then consumed + [start] else consumed);
    }
  }

  /** The arguments of a call, written as a list, are read back as they were, up to the closing parenthesis. */
  lemma {:induction false} WrittenCallIsRead(x: string, i: nat, arguments: seq<CallArgument>,
                                             before: seq<CallArgument>, consumed: seq<nat>)
    requires PlainArguments(arguments, |consumed|) && |before| + |arguments| <= QUERY_MAX_CALL_ARGUMENTS
    requires StandsAt(WrittenArguments(arguments), x, i)
    ensures var list := ReadArguments(x, i, 1, before, consumed);
            list.arguments == before + arguments && list.end == i + |WrittenArguments(arguments)|
    decreases |arguments|
  {
    hide ReadArguments, PlainArgument, WrittenArgument, WrittenArguments, StandsAt, MarkerAt;
    if arguments == [] {
      WrittenNothing(x, i);
      ReadsNoMore(x, i, before, consumed);
      assert before + [] == before;
    } else {
      var end := i + |WrittenArgument(arguments[0])|;
      var before', consumed' := before + [arguments[0]], if MarkerAt(x, i) then consumed + [i] else consumed;
      assert before + arguments == before' + arguments[1..];
      if |arguments| == 1 {
        WrittenOne(x, i, arguments);
        FirstArgumentRead(x, i, arguments[0], before, consumed);
        ReadsNoMore(x, end, before', consumed');
      } else {
        WrittenMore(x, i, arguments);
        FirstArgumentRead(x, i, arguments[0], before, consumed);
        BlankSkipped(x, end + 1, before', consumed');
        WrittenCallIsRead(x, end + 2, arguments[1..], before', consumed');
      }
    }
  }

  lemma WrittenNothing(x: string, i: nat)
    requires StandsAt(WrittenArguments([]), x, i)
    ensures At(x, i, ')') && |WrittenArguments([])| == 1
  {
    StandsCharacter(")", x, i, 0);
  }

  lemma WrittenOne(x: string, i: nat, arguments: seq<CallArgument>)
    requires |arguments| == 1 && StandsAt(WrittenArguments(arguments), x, i)
    ensures var first := WrittenArgument(arguments[0]);
            StandsAt(first, x, i) && At(x, i + |first|, ')') && |WrittenArguments(arguments)| == |first| + 1
  {
    hide WrittenArgument, StandsAt;
    var first := WrittenArgument(arguments[0]);
    assert WrittenArguments(arguments) == first + ")";
    hide WrittenArguments;
    StandsInParts(first, ")", x, i);
    StandsCharacter(")", x, i + |first|, 0);
  }

  lemma WrittenMore(x: string, i: nat, arguments: seq<CallArgument>)
    requires |arguments| > 1 && StandsAt(WrittenArguments(arguments), x, i)
    ensures var first, rest := WrittenArgument(arguments[0]), WrittenArguments(arguments[1..]);
            var end := i + |first|;
            && StandsAt(first, x, i) && At(x, end, ',') && At(x, end + 1, ' ') && StandsAt(rest, x, end + 2)
            && |WrittenArguments(arguments)| == |first| + 2 + |rest|
  {
    hide WrittenArgument, StandsAt;
    var first, rest := WrittenArgument(arguments[0]), WrittenArguments(arguments[1..]);
    assert WrittenArguments(arguments) == first + ", " + rest;
    hide WrittenArguments;
    ListInParts(x, i, first, rest);
  }

  lemma ListInParts(x: string, i: nat, first: string, rest: string)
    requires StandsAt(first + ", " + rest, x, i)
    ensures var end := i + |first|;
            && StandsAt(first, x, i) && At(x, end, ',') && At(x, end + 1, ' ') && StandsAt(rest, x, end + 2)
  {
    hide StandsAt;
    StandsInParts(first + ", ", rest, x, i);
    StandsInParts(first, ", ", x, i);
    StandsCharacter(", ", x, i + |first|, 0);
    StandsCharacter(", ", x, i + |first|, 1);
  }

  // One argument and the comma behind it.
  lemma FirstArgumentRead(x: string, i: nat, argument: CallArgument, before: seq<CallArgument>, consumed: seq<nat>)
    requires PlainArgument(argument, |consumed|) && StandsAt(WrittenArgument(argument), x, i)
    requires |before| < QUERY_MAX_CALL_ARGUMENTS
    requires var end := i + |WrittenArgument(argument)|; At(x, end, ',') || At(x, end, ')')
    ensures argument.parameterNumber > 0 <==> MarkerAt(x, i)
    ensures ReadArguments(x, i, 1, before, consumed)
            == ReadArguments(x, BehindComma(x, i + |WrittenArgument(argument)|), 1, before + [argument],
                             if MarkerAt(x, i) then consumed + [i] else consumed)
  {
    hide ArgumentAt, PlainArgument, WrittenArgument, MarkerAt, StandsAt;
    ArgumentRead(x, i, argument, |consumed|);
  }

  lemma ReadsNoMore(x: string, i: nat, arguments: seq<CallArgument>, consumed: seq<nat>)
    requires At(x, i, ')')
    ensures ReadArguments(x, i, 1, arguments, consumed) == CallList(i + 1, arguments, consumed)
  {
  }

  lemma BlankSkipped(x: string, i: nat, arguments: seq<CallArgument>, consumed: seq<nat>)
    requires i < |x| && Blank(x[i])
    ensures ReadArguments(x, i, 1, arguments, consumed) == ReadArguments(x, i + 1, 1, arguments, consumed)
  {
    hide ArgumentAt;
  }

  // ---- Numbering ----

  // Reading a list numbers its markers on, in the order of their positions; the arguments keep
  // the numbers they were given.
  // The '?' that begins an argument has been consumed.
  lemma ArgumentConsumed(x: string, consumed: seq<nat>, i: nat, start: nat, next: nat)
    requires ConsumedMarkers(x, consumed, i) && i <= start < next
    ensures var after := if MarkerAt(x, start) then consumed + [start] else consumed;
            ConsumedMarkers(x, after, next) && ConsumedSince(consumed, i, after)
  {
    hide ConsumedMarkers, ConsumedSince;
    if MarkerAt(x, start) {
      MarkerConsumed(x, consumed, i, start, next);
    } else {
      ConsumedEarlier(x, consumed, i, next);
      SinceNothing(consumed, i);
    }
  }

  lemma ArgumentRecorded(x: string, start: nat, depth: nat, arguments: seq<CallArgument>, consumed: seq<nat>,
                         first: nat, from: nat)
    requires start < |x| && x[start] !in {',', ')'} && depth >= 1 && ArgumentsUpTo(arguments, |consumed|)
    requires first <= |arguments| && from <= |consumed| && NumberedArguments(arguments, first, from)
    ensures var recorded := Recorded(arguments, ArgumentAt(x, start, depth, |consumed|).0);
            && NumberedArguments(recorded, first, from) && arguments <= recorded
            && ArgumentsUpTo(recorded, |consumed| + if MarkerAt(x, start) then 1 else 0)
  {
    hide ArgumentsUpTo, NumberedArguments, BlankEnd, CastAt, LiteralEnd, TrimPadding;
    ArgumentAppended(arguments, first, from, |consumed|, ArgumentAt(x, start, depth, |consumed|).0);
  }

  lemma {:induction false} ReadArgumentsNumbered(x: string, i: nat, depth: nat, arguments: seq<CallArgument>,
                                                 consumed: seq<nat>, first: nat, from: nat)
    requires i <= |x| && depth >= 1 && ConsumedMarkers(x, consumed, i) && ArgumentsUpTo(arguments, |consumed|)
    requires first <= |arguments| && from <= |consumed| && NumberedArguments(arguments, first, from)
    ensures var list := ReadArguments(x, i, depth, arguments, consumed);
            && ConsumedMarkers(x, list.consumed, list.end) && ConsumedSince(consumed, i, list.consumed)
            && arguments <= list.arguments && ArgumentsUpTo(list.arguments, |list.consumed|)
            && NumberedArguments(list.arguments, first, from)
    decreases |x| - i
  {
    hide ArgumentAt, ConsumedMarkers, ArgumentsUpTo, NumberedArguments, ConsumedSince, ReadArguments, BlankEnd;
    hide Recorded, MarkerAt;
    var start := BlankEnd(x, i);
    BlanksRead(x, i, depth, arguments, consumed);
    ReadArgumentsHere(x, start, depth, arguments, consumed);
    SinceNothing(consumed, i);
    if start == |x| || x[start] == ')' {
      var end := if start == |x| then start else start + 1;
      ConsumedEarlier(x, consumed, i, end);
    } else if x[start] == ',' {
      ConsumedEarlier(x, consumed, i, start + 1);
      ReadArgumentsNumbered(x, start + 1, depth, arguments, consumed, first, from);
      SinceJoined(consumed, i, consumed, start + 1, ReadArguments(x, i, depth, arguments, consumed).consumed);
    } else {
      var (argument, end, depth') := ArgumentAt(x, start, depth, |consumed|);
      var consumed' := if MarkerAt(x, start) then consumed + [start] else consumed;
      var next := BehindComma(x, BlankEnd(x, end));
      ArgumentRecorded(x, start, depth, arguments, consumed, first, from);
      ArgumentConsumed(x, consumed, i, start, next);
      ReadArgumentsNumbered(x, next, depth', Recorded(arguments, argument), consumed', first, from);
      SinceJoined(consumed, i, consumed', next, ReadArguments(x, i, depth, arguments, consumed).consumed);
    }
  }
}
