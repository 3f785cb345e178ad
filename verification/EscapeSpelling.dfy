/**
 The spellings that ODBC leaves open: letter case and blanks in escapes, escapes without an end, and
 the texts that are rewritten outside braces.
 */
module EscapeSpelling {
  import opened Ascii
  import opened EscapeModel
  import opened EscapeTrees
  import opened NestedEscapes
  import opened ScannerModel
  import opened SqlLexer

  // ---- Blanks ----

  predicate Pads(s: string) {
    forall c <- s :: c == ' ' || c == '\t'
  }

  predicate Blanks(s: string) {
    forall c <- s :: Blank(c)
  }

  lemma {:induction false} PadsSkipped(x: string, i: nat, pad: string)
    requires Pads(pad) && StandsAt(pad, x, i) && (i + |pad| < |x| ==> x[i + |pad|] != ' ' && x[i + |pad|] != '\t')
    ensures i <= |x| && PadEnd(x, i) == i + |pad|
    decreases |pad|
  {
    if pad != "" {
      FirstOff(x, i, pad);
      assert pad[0] in pad;
      hide StandsAt;
      PadsSkipped(x, i + 1, pad[1..]);
    }
  }

  lemma {:induction false} BlanksSkipped(x: string, i: nat, blanks: string)
    requires Blanks(blanks) && StandsAt(blanks, x, i) && (i + |blanks| < |x| ==> !Blank(x[i + |blanks|]))
    ensures i <= |x| && BlankEnd(x, i) == i + |blanks|
    decreases |blanks|
  {
    if blanks != "" {
      FirstOff(x, i, blanks);
      assert blanks[0] in blanks;
      hide StandsAt, Blank;
      BlanksSkipped(x, i + 1, blanks[1..]);
    }
  }

  lemma FirstOff(x: string, i: nat, text: string)
    requires text != "" && StandsAt(text, x, i)
    ensures At(x, i, text[0]) && StandsAt(text[1..], x, i + 1) && forall c <- text[1..] :: c in text
  {
    StandsCharacter(text, x, i, 0);
    assert text == [text[0]] + text[1..];
    StandsInParts([text[0]], text[1..], x, i);
  }

  // ---- Keywords in any letter case ----

  // The word ends where it is written.
  predicate WordEnds(x: string, i: nat) {
    i < |x| ==> !IdentifierPart(x[i])
  }

  lemma KeywordInAnyCase(x: string, i: nat, keyword: string, word: string)
    requires SameIgnoringCase(word, keyword) && StandsAt(word, x, i)
    ensures KeywordAt(x, i, keyword) <==> WordEnds(x, i + |word|)
  {
  }

  const ESCAPE_WORDS := ["fn", "ts", "d", "t", "oj", "escape"]

  lemma EscapeInAnyCase(x: string, i: nat, keyword: string, word: string)
    requires keyword in ESCAPE_WORDS && SameIgnoringCase(word, keyword)
    requires StandsAt(word, x, i) && WordEnds(x, i + |word|)
    ensures EscapeAt(x, i) == EscapeOf(keyword) && KeywordLength(EscapeOf(keyword)) == |word|
  {
    KeywordInAnyCase(x, i, keyword, word);
    StandsCharacter(word, x, i, 0);
    assert Lower(x[i]) == Lower(keyword[0]);
    if keyword == "t" {
      NotTs(x, i);
    }
    hide StandsAt, KeywordAt, WordEnds;
    if keyword != "fn" {
      NotKeyword(x, i, "fn", 0);
    }
    if keyword != "t" && keyword != "ts" {
      NotKeyword(x, i, "ts", 0);
      NotKeyword(x, i, "t", 0);
    }
    if keyword != "d" {
      NotKeyword(x, i, "d", 0);
    }
    if keyword != "oj" {
      NotKeyword(x, i, "oj", 0);
    }
  }

  lemma NotTs(x: string, i: nat)
    requires i < |x| && WordEnds(x, i + 1)
    ensures !KeywordAt(x, i, "ts")
  {
    if i + 1 < |x| {
      assert Lower(x[i + 1]) != 's';
      NotKeyword(x, i, "ts", 1);
    }
  }

  // ---- The head of an escape ----

  function HeadText(pad: string, word: string, blanks: string): string {
    "{" + (pad + (word + blanks))
  }

  /**
   The brace, its keyword in any letter case and the blanks around it open the escape; the body begins
   behind them.
   */
  lemma HeadRead(x: string, i: nat, keyword: string, pad: string, word: string, blanks: string)
    requires keyword in ESCAPE_WORDS && SameIgnoringCase(word, keyword) && Pads(pad) && Blanks(blanks)
    requires StandsAt(HeadText(pad, word, blanks), x, i)
    requires var j := i + |HeadText(pad, word, blanks)|;
             (j < |x| ==> !Blank(x[j])) && (blanks == "" ==> WordEnds(x, j))
    ensures At(x, i, '{') && EscapeAt(x, PadEnd(x, i + 1)) == EscapeOf(keyword)
    ensures BlankEnd(x, BodyStart(x, i)) == i + |HeadText(pad, word, blanks)|
  {
    hide StandsAt, EscapeAt, PadEnd, BlankEnd, Blanks, Pads, SameIgnoringCase;
    var w := i + 1 + |pad|;
    StandsInParts("{", pad + (word + blanks), x, i);
    StandsInParts(pad, word + blanks, x, i + 1);
    StandsInParts(word, blanks, x, w);
    StandsCharacter("{", x, i, 0);
    WordFirst(x, w, keyword, word);
    PadsSkipped(x, i + 1, pad);
    BlanksEndWord(x, w + |word|, blanks);
    EscapeInAnyCase(x, w, keyword, word);
    BlanksSkipped(x, w + |word|, blanks);
  }

  lemma WordFirst(x: string, i: nat, keyword: string, word: string)
    requires keyword in ESCAPE_WORDS && SameIgnoringCase(word, keyword) && StandsAt(word, x, i)
    ensures i < |x| && x[i] != ' ' && x[i] != '\t'
  {
    StandsCharacter(word, x, i, 0);
    assert Lower(x[i]) == Lower(keyword[0]);
  }

  lemma BlanksEndWord(x: string, i: nat, blanks: string)
    requires Blanks(blanks) && StandsAt(blanks, x, i) && (blanks == "" ==> WordEnds(x, i))
    ensures WordEnds(x, i)
  {
    if blanks != "" {
      StandsCharacter(blanks, x, i, 0);
      assert blanks[0] in blanks;
    }
  }

  /** A brace behind which no escape begins stands for itself. */
  lemma OtherBrace(x: string, scs: bool, s: Scan)
    requires s.state.Normal? && At(x, s.at, '{')
    requires var i := PadEnd(x, s.at + 1);
             !At(x, i, '?') && !KeywordAt(x, i, "call") && forall keyword <- ESCAPE_WORDS :: !KeywordAt(x, i, keyword)
    ensures Step(x, scs, s) == s.(at := s.at + 1, output := s.output + Texts("{"))
  {
    hide KeywordAt, PadEnd, Texts;
    assert ESCAPE_WORDS[0] == "fn" && ESCAPE_WORDS[1] == "ts" && ESCAPE_WORDS[2] == "d" && ESCAPE_WORDS[3] == "t";
    assert ESCAPE_WORDS[4] == "oj" && ESCAPE_WORDS[5] == "escape";
    NotIdentity(x, s.at);
  }

  lemma NotIdentity(x: string, i: nat)
    requires At(x, i, '{')
    ensures !KeywordAt(x, i, "@@identity")
  {
    NotKeyword(x, i, "@@identity", 0);
  }

  // ---- Whole escapes, however they are spelled ----

  // Behind the head stand these texts up to the closing brace.
  function EscapeText(head: string, body: string): string {
    head + (body + "}")
  }

  lemma EscapeParts(x: string, i: nat, head: string, body: string)
    requires StandsAt(EscapeText(head, body), x, i)
    ensures StandsAt(head, x, i) && StandsAt(body, x, i + |head|) && At(x, i + |head| + |body|, '}')
  {
    hide StandsAt;
    StandsInParts(head, body + "}", x, i);
    StandsInParts(body, "}", x, i + |head|);
    StandsCharacter("}", x, i + |head| + |body|, 0);
  }

  // The body begins where it is written, with no blank and no character that goes on with the keyword.
  lemma BodyRead(x: string, i: nat, keyword: string, pad: string, word: string, blanks: string, body: string)
    requires keyword in ESCAPE_WORDS && SameIgnoringCase(word, keyword) && Pads(pad) && Blanks(blanks)
    requires StandsAt(EscapeText(HeadText(pad, word, blanks), body), x, i)
    requires body != "" ==> !Blank(body[0]) && (blanks == "" ==> !IdentifierPart(body[0]))
    ensures At(x, i, '{') && EscapeAt(x, PadEnd(x, i + 1)) == EscapeOf(keyword)
    ensures BlankEnd(x, BodyStart(x, i)) == i + |HeadText(pad, word, blanks)|
  {
    hide StandsAt, EscapeAt, PadEnd, BlankEnd, BodyStart, HeadText, SameIgnoringCase, Pads, Blanks;
    var head := HeadText(pad, word, blanks);
    EscapeParts(x, i, head, body);
    if body != "" {
      StandsCharacter(body, x, i + |head|, 0);
    }
    HeadRead(x, i, keyword, pad, word, blanks);
  }

  /** A date, time or timestamp becomes its value with its cast, whatever blanks surround the value. */
  lemma StampSpelled(x: string, scs: bool, s: Scan, keyword: string, pad: string, word: string, blanks: string,
                     value: string)
    requires s.state.Normal? && keyword in ["d", "t", "ts"] && SameIgnoringCase(word, keyword)
    requires Pads(pad) && Blanks(blanks) && BodyText(value)
    requires value != "" && blanks == "" ==> !IdentifierPart(value[0])
    requires StandsAt(EscapeText(HeadText(pad, word, blanks), value), x, s.at)
    ensures Step(x, scs, s)
            == s.(at := s.at + |EscapeText(HeadText(pad, word, blanks), value)|,
                  output := s.output + Texts(TrimPadding(value) + CastOf(keyword)))
  {
    hide Step, StandsAt, EscapeAt, PadEnd, BlankEnd, BodyStart, BraceAt, BehindBrace, Texts, DatetimeBody, TrimPadding;
    hide CastOf, HeadText, SameIgnoringCase, Pads, Blanks;
    var head := HeadText(pad, word, blanks);
    BodyRead(x, s.at, keyword, pad, word, blanks, value);
    EscapeParts(x, s.at, head, value);
    BraceStands(x, s.at + |head|, value);
    StampBody(x, s.at + |head|, value);
    EscapeOpens(x, scs, s, DatetimeEscape(CastOf(keyword)));
  }

  /** A LIKE escape becomes ESCAPE and its body. */
  lemma LikeSpelled(x: string, scs: bool, s: Scan, pad: string, word: string, blanks: string, pattern: string)
    requires s.state.Normal? && SameIgnoringCase(word, "escape") && Pads(pad) && Blanks(blanks) && BodyText(pattern)
    requires pattern != "" && blanks == "" ==> !IdentifierPart(pattern[0])
    requires StandsAt(EscapeText(HeadText(pad, word, blanks), pattern), x, s.at)
    ensures Step(x, scs, s)
            == s.(at := s.at + |EscapeText(HeadText(pad, word, blanks), pattern)|,
                  output := s.output + Texts("ESCAPE " + pattern))
  {
    hide Step, StandsAt, EscapeAt, PadEnd, BlankEnd, BodyStart, BraceAt, BehindBrace, Texts, HeadText, SameIgnoringCase;
    hide Pads, Blanks;
    var head := HeadText(pad, word, blanks);
    assert ESCAPE_WORDS[5] == "escape";
    BodyRead(x, s.at, "escape", pad, word, blanks, pattern);
    EscapeParts(x, s.at, head, pattern);
    BraceStands(x, s.at + |head|, pattern);
    StandsInside(pattern, x, s.at + |head|);
    EscapeOpens(x, scs, s, LikeEscape);
  }

  /** The body of an outer join is copied from its first character on. */
  lemma JoinSpelled(x: string, scs: bool, s: Scan, pad: string, word: string, blanks: string, body: string)
    requires s.state.Normal? && SameIgnoringCase(word, "oj") && Pads(pad) && Blanks(blanks)
    requires body != "" ==> !Blank(body[0]) && (blanks == "" ==> !IdentifierPart(body[0]))
    requires StandsAt(EscapeText(HeadText(pad, word, blanks), body), x, s.at)
    ensures Step(x, scs, s) == CopyBody(x, scs, s.(at := s.at + |HeadText(pad, word, blanks)|))
  {
    hide Step, StandsAt, EscapeAt, PadEnd, BlankEnd, BodyStart, CopyBody, HeadText, SameIgnoringCase, Pads, Blanks;
    assert ESCAPE_WORDS[4] == "oj";
    BodyRead(x, s.at, "oj", pad, word, blanks, body);
    EscapeOpens(x, scs, s, OuterJoinEscape);
  }

  // The text of a function call: blanks may stand in front of its list and behind it.
  function FnBody(name: string, gap: string, arguments: seq<Argument>, closing: string): string {
    name + (gap + ("(" + (PrintedArguments(arguments) + ")" + closing)))
  }

  predicate FnName(name: string) {
    |name| <= MAX_FN_NAME && forall c <- name :: c !in FN_NAME_STOP && !Blank(c)
  }

  lemma FnBodyParts(x: string, i: nat, name: string, gap: string, arguments: seq<Argument>, closing: string)
    requires StandsAt(FnBody(name, gap, arguments, closing), x, i)
    ensures var open := i + |name| + |gap|;
            && StandsAt(name, x, i) && StandsAt(gap, x, i + |name|) && At(x, open, '(')
            && StandsAt(PrintedArguments(arguments) + ")", x, open + 1)
            && StandsAt(closing, x, open + 2 + |PrintedArguments(arguments)|)
            && |FnBody(name, gap, arguments, closing)| == |name| + |gap| + |PrintedArguments(arguments)| + 2 + |closing|
  {
    hide StandsAt, PrintedArguments;
    var open, list := i + |name| + |gap|, PrintedArguments(arguments) + ")";
    StandsInParts(name, gap + ("(" + (list + closing)), x, i);
    StandsInParts(gap, "(" + (list + closing), x, i + |name|);
    StandsInParts("(", list + closing, x, open);
    StandsInParts(list, closing, x, open + 1);
    StandsCharacter("(", x, open, 0);
  }

  // The name is read up to the blanks or the parenthesis behind it, and the blanks are skipped.
  lemma FnNameRead(x: string, i: nat, name: string, gap: string)
    requires FnName(name) && Blanks(gap) && gap !in {"\n", "\r"} && (gap != "" ==> gap[0] in FN_NAME_STOP)
    requires StandsAt(name, x, i) && StandsAt(gap, x, i + |name|) && At(x, i + |name| + |gap|, '(')
    ensures NameEnd(x, i, MAX_FN_NAME, FN_NAME_STOP) == i + |name| && x[i..i + |name|] == name
    ensures BlankEnd(x, i + |name|) == i + |name| + |gap| && i + |name| <= |x|
  {
    BlanksSkipped(x, i + |name|, gap);
    if gap != "" {
      StandsCharacter(gap, x, i + |name|, 0);
    }
    FnNameEnds(x, i, name, MAX_FN_NAME);
  }

  lemma {:induction false} FnNameEnds(x: string, i: nat, name: string, limit: nat)
    requires StandsAt(name, x, i) && |name| <= limit && i + |name| < |x| && x[i + |name|] in FN_NAME_STOP
    requires forall c <- name :: c !in FN_NAME_STOP
    ensures NameEnd(x, i, limit, FN_NAME_STOP) == i + |name|
    decreases |name|
  {
    hide StandsAt, NameEnd;
    if name != "" {
      FirstOff(x, i, name);
      assert name[0] in name;
      FnNameEnds(x, i + 1, name[1..], limit - 1);
    }
    NameStep(x, i, limit, FN_NAME_STOP);
  }

  /**
   A function call is expanded in the same way wherever blanks stand around its keyword, in front of
   its list and behind it.
   */
  lemma FnSpelled(x: string, scs: bool, s: Scan, pad: string, word: string, blanks: string, name: string, gap: string,
                  arguments: seq<Argument>, closing: string)
    requires s.state.Normal? && SameIgnoringCase(word, "fn") && Pads(pad) && Blanks(blanks) && blanks != ""
    requires FnName(name) && Pads(gap) && Blanks(closing) && (name == "" ==> gap == "")
    requires 1 <= |arguments| <= MAX_FN_ARGUMENTS && forall a <- arguments :: Printable(a.parts, {','}, scs)
    requires StandsAt(EscapeText(HeadText(pad, word, blanks), FnBody(name, gap, arguments, closing)), x, s.at)
    requires ArgumentsKept(x, arguments, s.at + |HeadText(pad, word, blanks)| + |name| + |gap| + 1)
    ensures var list := s.at + |HeadText(pad, word, blanks)| + |name| + |gap| + 1;
            var meanings := ArgumentMeanings(arguments, list, |s.consumed|);
            var t := Step(x, scs, s);
            && t.at == s.at + |EscapeText(HeadText(pad, word, blanks), FnBody(name, gap, arguments, closing))|
            && t.output == s.output + FunctionText(name, Given(arguments, meanings))
            && t.consumed == s.consumed + ArgumentMarks(arguments, list) && t.state.Normal?
  {
    hide Step, StandsAt, PrintedArguments, ArgumentMeanings, ArgumentMarks, FunctionText, Collect, Printable, Given;
    hide NameEnd, BlankEnd, PadEnd, EscapeAt, BodyStart, FunctionEscaped, HeadText, SameIgnoringCase, Pads, Blanks;
    hide ArgumentsKept, FnBody, FnName, FN_NAME_STOP;
    var head, body := HeadText(pad, word, blanks), FnBody(name, gap, arguments, closing);
    var start := s.at + |head|;
    var open := start + |name| + |gap|;
    EscapeParts(x, s.at, head, body);
    FnBodyParts(x, start, name, gap, arguments, closing);
    FnHead(x, s.at, pad, word, blanks, name, gap, arguments, closing);
    EscapeOpens(x, scs, s, FunctionEscape);
    GapStops(name, gap);
    FnNameRead(x, start, name, gap);
    var t := s.(at := open + 1, output := []);
    ArgumentsCollected(x, scs, t, arguments, [], MAX_FN_ARGUMENTS);
    var c := Collect(x, scs, t, 1, [], false, MAX_FN_ARGUMENTS);
    FnCollected(x, scs, s.(at := BodyStart(x, s.at)), name, start, open);
    FnClosed(x, s, name, arguments, open, closing, c);
  }

  lemma GapStops(name: string, gap: string)
    requires Pads(gap)
    ensures Blanks(gap) && gap !in {"\n", "\r"} && (gap != "" ==> gap[0] in FN_NAME_STOP)
  {
    if gap != "" {
      assert gap[0] in gap;
    }
  }

  lemma FnHead(x: string, i: nat, pad: string, word: string, blanks: string, name: string, gap: string,
               arguments: seq<Argument>, closing: string)
    requires SameIgnoringCase(word, "fn") && Pads(pad) && Blanks(blanks) && blanks != "" && FnName(name) && Pads(gap)
    requires StandsAt(EscapeText(HeadText(pad, word, blanks), FnBody(name, gap, arguments, closing)), x, i)
    requires name == "" ==> gap == ""
    ensures At(x, i, '{') && EscapeAt(x, PadEnd(x, i + 1)) == FunctionEscape
    ensures BlankEnd(x, BodyStart(x, i)) == i + |HeadText(pad, word, blanks)|
  {
    hide StandsAt, EscapeAt, PadEnd, BlankEnd, BodyStart, HeadText, SameIgnoringCase, Pads, Blanks, PrintedArguments;
    assert ESCAPE_WORDS[0] == "fn";
    if name != "" {
      assert name[0] in name;
    }
    BodyRead(x, i, "fn", pad, word, blanks, FnBody(name, gap, arguments, closing));
  }

  lemma FnCollected(x: string, scs: bool, s: Scan, name: string, start: nat, open: nat)
    requires s.at <= |x| && At(x, open, '(') && BlankEnd(x, s.at) == start
    requires var nameEnd := NameEnd(x, start, MAX_FN_NAME, FN_NAME_STOP);
             start <= nameEnd <= |x| && BlankEnd(x, nameEnd) == open && x[start..nameEnd] == name
    ensures var c := Collect(x, scs, s.(at := open + 1, output := []), 1, [], false, MAX_FN_ARGUMENTS);
            c.arguments.Some? ==>
              FunctionEscaped(x, scs, s) ==
              FunctionClosed(x, c.scan.(output := s.output), FunctionText(name, c.arguments.value))
  {
    hide NameEnd, BlankEnd, Collect, FunctionText, FunctionClosed;
  }

  lemma FnClosed(x: string, s: Scan, name: string, arguments: seq<Argument>, open: nat, closing: string, c: Collected)
    requires ArgumentsRead(s.(at := open + 1, output := []), arguments, [], c) && c.scan.at <= |x|
    requires var behind := open + 2 + |PrintedArguments(arguments)|;
             Blanks(closing) && StandsAt(closing, x, behind) && At(x, behind + |closing|, '}')
    ensures c.arguments.Some?
    ensures var t := FunctionClosed(x, c.scan.(output := s.output), FunctionText(name, c.arguments.value));
            && t.at == open + 3 + |PrintedArguments(arguments)| + |closing| && t.state.Normal?
            && t.output ==
               s.output + FunctionText(name, Given(arguments, ArgumentMeanings(arguments, open + 1, |s.consumed|)))
            && t.consumed == s.consumed + ArgumentMarks(arguments, open + 1)
  {
    hide PrintedArguments, ArgumentMeanings, ArgumentMarks, FunctionText, WithInputs, Given, StandsAt, BlankEnd, Blanks;
    BlanksSkipped(x, open + 2 + |PrintedArguments(arguments)|, closing);
  }

  /** A function without a list leaves its name alone, and the rest up to the brace is dropped. */
  lemma BareFnStep(x: string, scs: bool, s: Scan, pad: string, word: string, blanks: string, name: string, gap: string,
                   rest: string)
    requires s.state.Normal? && SameIgnoringCase(word, "fn") && Pads(pad) && Blanks(blanks) && blanks != ""
    requires FnName(name) && name != "" && Pads(gap) && '}' !in rest
    requires rest != "" ==> gap != "" && rest[0] != '(' && !Blank(rest[0])
    requires StandsAt(EscapeText(HeadText(pad, word, blanks), name + (gap + rest)), x, s.at)
    ensures Step(x, scs, s)
            == s.(at := s.at + |EscapeText(HeadText(pad, word, blanks), name + (gap + rest))|,
                  output := s.output + Texts(name))
  {
    hide Step, StandsAt, NameEnd, BlankEnd, PadEnd, EscapeAt, BodyStart, FunctionEscaped, HeadText, SameIgnoringCase;
    hide Pads, Blanks, BraceAt, BehindBrace, Texts;
    var head, body := HeadText(pad, word, blanks), name + (gap + rest);
    var start := s.at + |head|;
    assert ESCAPE_WORDS[0] == "fn" && name[0] in name;
    BodyRead(x, s.at, "fn", pad, word, blanks, body);
    EscapeParts(x, s.at, head, body);
    BareParts(x, start, name, gap, rest);
    EscapeOpens(x, scs, s, FunctionEscape);
    BareEscaped(x, scs, s.(at := BodyStart(x, s.at)), name, gap, rest, start);
  }

  lemma BareParts(x: string, i: nat, name: string, gap: string, rest: string)
    requires StandsAt(name + (gap + rest), x, i) && At(x, i + |name + (gap + rest)|, '}')
    requires FnName(name) && Pads(gap) && '}' !in rest
    requires rest != "" ==> gap != "" && rest[0] != '(' && !Blank(rest[0])
    ensures var open := i + |name| + |gap|;
            && NameEnd(x, i, MAX_FN_NAME, FN_NAME_STOP) == i + |name| <= |x| && x[i..i + |name|] == name
            && BlankEnd(x, i + |name|) == open < |x| && !At(x, open, '(')
            && BehindBrace(x, open) == open + |rest| + 1
  {
    hide StandsAt, NameEnd, BlankEnd, BraceAt, BehindBrace, FN_NAME_STOP;
    var open := i + |name| + |gap|;
    StandsInParts(name, gap + rest, x, i);
    StandsInParts(gap, rest, x, i + |name|);
    StandsInside(name, x, i);
    if rest != "" {
      StandsCharacter(rest, x, open, 0);
    }
    GapStops(name, gap);
    BlanksSkipped(x, i + |name|, gap);
    if gap != "" {
      StandsCharacter(gap, x, i + |name|, 0);
    } else {
      BraceStops();
    }
    FnNameEnds(x, i, name, MAX_FN_NAME);
    BraceStands(x, open, rest);
  }

  lemma BraceStops()
    ensures '}' in FN_NAME_STOP
  {
  }

  lemma BareEscaped(x: string, scs: bool, s: Scan, name: string, gap: string, rest: string, start: nat)
    requires s.at <= |x| && BlankEnd(x, s.at) == start
    requires var nameEnd := NameEnd(x, start, MAX_FN_NAME, FN_NAME_STOP);
             var open := start + |name| + |gap|;
             && start <= nameEnd <= |x| && x[start..nameEnd] == name && BlankEnd(x, nameEnd) == open < |x|
             && !At(x, open, '(') && BehindBrace(x, open) == open + |rest| + 1
    ensures FunctionEscaped(x, scs, s)
            == s.(at := start + |name| + |gap| + |rest| + 1, output := s.output + Texts(name))
  {
    hide NameEnd, BlankEnd, BehindBrace, Texts, CollectCall;
  }

  /** A list of too many arguments is read and dropped with its function. */
  lemma TooManyArguments(x: string, scs: bool, s: Scan)
    requires s.at <= |x|
    requires var open := BlankEnd(x, NameEnd(x, BlankEnd(x, s.at), MAX_FN_NAME, FN_NAME_STOP));
             At(x, open, '(') && CollectCall(x, scs, s.(at := open), MAX_FN_ARGUMENTS).arguments.None?
    ensures var t := FunctionEscaped(x, scs, s); t.output == s.output && t.at > s.at
  {
    hide NameEnd, BlankEnd, Collect;
  }

  // ---- Escapes without an end ----

  lemma {:induction false} NoBrace(x: string, i: nat)
    requires i <= |x| && forall k :: i <= k < |x| ==> x[k] != '}'
    ensures BraceAt(x, i) == |x| && BehindBrace(x, i) == |x| && DatetimeBody(x, i) == x[i..]
    decreases |x| - i
  {
    if i < |x| {
      NoBrace(x, i + 1);
    }
  }

  lemma UnclosedBody(x: string, i: nat, body: string)
    requires '}' !in body && StandsAt(body, x, i) && i + |body| == |x|
    ensures BraceAt(x, i) == |x| && BehindBrace(x, i) == |x| && DatetimeBody(x, i) == body && x[i..|x|] == body
  {
    hide BraceAt, BehindBrace, DatetimeBody;
    forall k | i <= k < |x| ensures x[k] != '}' {
      assert x[k] == x[i..i + |body|][k - i] && body[k - i] in body;
    }
    NoBrace(x, i);
  }

  /** An escape that nothing closes takes the rest of the text. */
  lemma UnclosedEscape(x: string, scs: bool, s: Scan, keyword: string, pad: string, word: string, blanks: string,
                       body: string)
    requires s.state.Normal? && keyword in ["d", "t", "ts", "escape"] && SameIgnoringCase(word, keyword)
    requires Pads(pad) && Blanks(blanks) && '}' !in body
    requires body != "" ==> !Blank(body[0]) && (blanks == "" ==> !IdentifierPart(body[0]))
    requires StandsAt(HeadText(pad, word, blanks) + body, x, s.at)
    requires s.at + |HeadText(pad, word, blanks)| + |body| == |x|
    ensures Step(x, scs, s)
            == s.(at := |x|,
                  output := s.output + Texts(if keyword == "escape" then "ESCAPE " + body else body + CastOf(keyword)))
  {
    hide Step, StandsAt, EscapeAt, PadEnd, BlankEnd, BodyStart, BraceAt, BehindBrace, Texts, DatetimeBody, HeadText;
    hide CastOf, SameIgnoringCase, Pads, Blanks, Escaped, EscapeOf;
    var start := s.at + |HeadText(pad, word, blanks)|;
    StandsInParts(HeadText(pad, word, blanks), body, x, s.at);
    if body != "" {
      StandsCharacter(body, x, start, 0);
    }
    AllWords(keyword);
    HeadRead(x, s.at, keyword, pad, word, blanks);
    UnclosedBody(x, start, body);
    EscapeOpens(x, scs, s, EscapeOf(keyword));
    UnclosedEscaped(x, scs, s.(at := BodyStart(x, s.at)), keyword, body);
  }

  lemma UnclosedEscaped(x: string, scs: bool, s: Scan, keyword: string, body: string)
    requires s.at <= |x| && keyword in ["d", "t", "ts", "escape"]
    requires var start := BlankEnd(x, s.at);
             && start <= |x| && BraceAt(x, start) == |x| && BehindBrace(x, start) == |x|
             && DatetimeBody(x, start) == body && x[start..|x|] == body
    ensures Escaped(x, scs, s, EscapeOf(keyword))
            == s.(at := |x|,
                  output := s.output + Texts(if keyword == "escape" then "ESCAPE " + body else body + CastOf(keyword)))
  {
    hide BlankEnd, BraceAt, BehindBrace, DatetimeBody, Texts, CastOf, EscapeOf;
    AllWords(keyword);
  }

  lemma AllWords(keyword: string)
    requires keyword in ["d", "t", "ts", "escape"]
    ensures keyword in ESCAPE_WORDS && EscapeOf(keyword) != NoEscape
    ensures EscapeOf(keyword) == if keyword == "escape" then LikeEscape else DatetimeEscape(CastOf(keyword))
  {
    assert ESCAPE_WORDS[5] == "escape";
  }

  // ---- Rewritings outside braces ----

  /** "@@identity" in any letter case, as a whole word, becomes a call of lastval. */
  lemma IdentityStep(x: string, scs: bool, s: Scan, word: string)
    requires s.state.Normal? && SameIgnoringCase(word, "@@identity") && StandsAt(word, x, s.at)
    requires WordEnds(x, s.at + |word|)
    ensures Step(x, scs, s) == s.(at := s.at + 10, output := s.output + Texts("lastval()"))
  {
    KeywordInAnyCase(x, s.at, "@@identity", word);
    StandsCharacter(word, x, s.at, 0);
    hide KeywordAt, StandsAt, Texts, SameIgnoringCase;
  }

  // Two empty lists around the keyword, with blanks between them and padding within.
  function RunText(inner: string, before: string, word: string, after: string, last: string): string {
    ListText(inner) + (before + (word + (after + ListText(last))))
  }

  // An empty list with its padding.
  function ListText(pad: string): string {
    "(" + (pad + ")")
  }

  lemma ListParts(x: string, i: nat, pad: string)
    requires StandsAt(ListText(pad), x, i)
    ensures At(x, i, '(') && StandsAt(pad, x, i + 1) && At(x, i + 1 + |pad|, ')') && |ListText(pad)| == |pad| + 2
  {
    hide StandsAt;
    StandsInParts("(", pad + ")", x, i);
    StandsInParts(pad, ")", x, i + 1);
    StandsCharacter("(", x, i, 0);
    StandsCharacter(")", x, i + 1 + |pad|, 0);
  }

  lemma RunParts(x: string, i: nat, inner: string, before: string, word: string, after: string, last: string)
    requires StandsAt(RunText(inner, before, word, after, last), x, i)
    ensures var a := i + 2 + |inner|;
            var b := a + |before|;
            var c := b + |word| + |after|;
            && StandsAt(ListText(inner), x, i) && StandsAt(before, x, a) && StandsAt(word, x, b)
            && StandsAt(after, x, b + |word|) && StandsAt(ListText(last), x, c)
            && c + 2 + |last| == i + |RunText(inner, before, word, after, last)|
  {
    hide StandsAt, ListText;
    var a := i + 2 + |inner|;
    var b := a + |before|;
    assert |ListText(inner)| == |inner| + 2 && |ListText(last)| == |last| + 2 by {
      ListLength(inner);
      ListLength(last);
    }
    StandsInParts(ListText(inner), before + (word + (after + ListText(last))), x, i);
    StandsInParts(before, word + (after + ListText(last)), x, a);
    StandsInParts(word, after + ListText(last), x, b);
    StandsInParts(after, ListText(last), x, b + |word|);
  }

  lemma ListLength(pad: string)
    ensures |ListText(pad)| == |pad| + 2
  {
  }

  lemma RunRead(x: string, i: nat, inner: string, before: string, word: string, after: string, last: string)
    requires StandsAt(RunText(inner, before, word, after, last), x, i)
    requires Pads(inner) && Blanks(before) && SameIgnoringCase(word, "values") && Blanks(after) && Pads(last)
    ensures EmptyValuesAt(x, i) && EmptyValuesEnd(x, i) == i + |RunText(inner, before, word, after, last)|
  {
    hide StandsAt, RunText, ListText, PadEnd, BlankEnd, Pads, Blanks;
    RunParts(x, i, inner, before, word, after, last);
    var a := i + 2 + |inner|;
    var b := a + |before|;
    var c := b + |word| + |after|;
    ListParts(x, i, inner);
    ListParts(x, c, last);
    PadsSkipped(x, i + 1, inner);
    ValuesFirst(x, b, word);
    BlanksSkipped(x, a, before);
    WordBefore(x, b + |word|, after);
    KeywordInAnyCase(x, b, "values", word);
    BlanksSkipped(x, b + |word|, after);
    PadsSkipped(x, c + 1, last);
  }

  lemma ValuesFirst(x: string, i: nat, word: string)
    requires SameIgnoringCase(word, "values") && StandsAt(word, x, i)
    ensures i < |x| && !Blank(x[i]) && |word| == 6
  {
    StandsCharacter(word, x, i, 0);
    assert Lower(x[i]) == 'v';
  }

  lemma WordBefore(x: string, i: nat, blanks: string)
    requires Blanks(blanks) && StandsAt(blanks, x, i) && At(x, i + |blanks|, '(')
    ensures WordEnds(x, i)
  {
    if blanks != "" {
      StandsCharacter(blanks, x, i, 0);
      assert blanks[0] in blanks;
    }
  }

  /** A statement that begins with INSERT in any letter case, behind any blanks, is one. */
  lemma InsertSpelled(x: string, blanks: string, word: string)
    requires Blanks(blanks) && SameIgnoringCase(word, "insert") && StandsAt(blanks + word, x, 0)
    requires WordEnds(x, |blanks| + |word|)
    ensures StatementIsInsert(x)
  {
    StandsInParts(blanks, word, x, 0);
    StandsCharacter(word, x, |blanks|, 0);
    assert Lower(x[|blanks|]) == 'i';
    BlanksSkipped(x, 0, blanks);
    KeywordInAnyCase(x, |blanks|, "insert", word);
  }

  /** In such a statement two empty lists around VALUES become DEFAULT VALUES. */
  lemma RunStep(x: string, scs: bool, s: Scan, inner: string, before: string, word: string, after: string, last: string)
    requires s.state.Normal? && StandsAt(RunText(inner, before, word, after, last), x, s.at) && StatementIsInsert(x)
    requires Pads(inner) && Blanks(before) && SameIgnoringCase(word, "values") && Blanks(after) && Pads(last)
    ensures Step(x, scs, s)
            == s.(at := s.at + |RunText(inner, before, word, after, last)|,
                  output := s.output + Texts("DEFAULT VALUES"))
  {
    hide StandsAt, RunText, EmptyValuesEnd, StatementIsInsert, KeywordAt, Texts, Pads, Blanks;
    RunParts(x, s.at, inner, before, word, after, last);
    ListParts(x, s.at, inner);
    RunRead(x, s.at, inner, before, word, after, last);
    NotKeyword(x, s.at, "@@identity", 0);
  }
}
