/**
 Statements with nested escapes, read: the scanner translates the printed text of a tree into what
 the tree means.
 */
module NestedEscapes {
  import opened Ascii
  import opened EscapeModel
  import opened EscapeReading
  import opened EscapeTrees
  import opened LiteralLexing
  import opened Options
  import opened QuotedLiterals
  import opened ScannerModel
  import opened SqlLexer

  // ---- Reading one part ----

  lemma StandsFirst(a: string, b: string, x: string, i: nat)
    requires StandsAt(a + b, x, i)
    ensures StandsAt(a, x, i) && StandsAt(b, x, i + |a|) && |a + b| == |a| + |b|
  {
    StandsInParts(a, b, x, i);
  }

  lemma StandsTail(text: string, x: string, i: nat)
    requires StandsAt(text, x, i) && text != ""
    ensures At(x, i, text[0]) && StandsAt(text[1..], x, i + 1) && forall c <- text[1..] :: c in text
  {
    hide StandsAt;
    StandsCharacter(text, x, i, 0);
    assert text == [text[0]] + text[1..];
    StandsFirst([text[0]], text[1..], x, i);
  }

  lemma FirstPrinted(p: Part)
    ensures PrintedPart(p)[0] == FirstCharacter(p)
  {
    hide Printed, PrintedArguments, Doubled;
  }

  predicate Ends(x: string, i: nat) {
    i < |x| ==> x[i] in {',', ')', '}'}
  }

  lemma NotJoined(p: Part, rest: seq<Part>, x: string, end: nat)
    requires StandsAt(Printed(rest), x, end)
    requires if rest == [] then Ends(x, end) else FirstCharacter(rest[0]) !in Joining(p)
    ensures end < |x| ==> x[end] !in Joining(p)
  {
    hide PrintedPart;
    if rest != [] {
      hide StandsAt;
      FirstPrinted(rest[0]);
      StandsFirst(PrintedPart(rest[0]), Printed(rest[1..]), x, end);
      StandsCharacter(PrintedPart(rest[0]), x, end, 0);
    }
  }

  // A turn of the collection that is a step.
  lemma CollectStep(x: string, scs: bool, s: Scan, depth: nat, arguments: seq<seq<Item>>, content: bool, room: nat)
    requires s.at < |x| && depth >= 1
    requires s.state.Normal? ==> x[s.at] !in {'(', ')'} && (x[s.at] == ',' ==> depth > 1)
    ensures Collect(x, scs, s, depth, arguments, content, room) ==
            Collect(x, scs, Step(x, scs, s), depth, arguments,
                    content || (s.state.Normal? && x[s.at] != ' ' && x[s.at] != '\t'), room)
  {
    hide Collect, Step, AllCollected, Replaced;
    CollectHere(x, scs, s, depth, arguments, content, room);
  }

  lemma CharacterUnit(x: string, scs: bool, i: nat, canOpen: bool, c: char)
    requires At(x, i, c) && c !in {'?', '$', QUOTE, '"'}
    requires i + 1 < |x| ==> x[i + 1] !in Joining(Plain(c))
    ensures ScanUnit(x, scs, i, Normal, canOpen) == Unit(i + 1, Normal, false) && !MarkerAt(x, i) && !PairAt(x, i)
  {
    hide DollarUnit, TagLength;
    assert x[i] != '?' && x[i] != '$' && x[i] != QUOTE && x[i] != '"';
  }

  // Nothing that stands in the place of a character is written differently.
  lemma CharacterNotRewritten(x: string, scs: bool, s: Scan, c: char)
    requires At(x, s.at, c) && c !in {'{', '@', '('}
    ensures Step(x, scs, s) == PlainStep(x, scs, s)
  {
    hide KeywordAt, EmptyValuesAt, StatementIsInsert, PlainStep;
    RewritesBy(x, s.at);
    assert x[s.at] != '{' && x[s.at] != '@' && x[s.at] != '(';
  }

  lemma CharacterStep(x: string, scs: bool, s: Scan, c: char)
    requires At(x, s.at, c) && s.state.Normal? && c !in {'?', '{', '@', '(', ')', QUOTE, '"', '$'}
    requires s.at + 1 < |x| ==> x[s.at + 1] !in Joining(Plain(c))
    ensures Step(x, scs, s) == BehindPart(s, Plain(c))
  {
    hide Step, CanOpenAfter, ScanUnit, MarkerAt, PairAt, Joining;
    CharacterNotRewritten(x, scs, s, c);
    CharacterUnit(x, scs, s.at, CanOpenAfter(s.output), c);
    OneText(c);
    OneCharacter(x, s.at);
    NothingConsumed(s, 1, [Text(c)]);
  }

  lemma OneCharacter(x: string, i: nat)
    requires i < |x|
    ensures x[i..i + 1] == [x[i]]
  {
  }

  lemma IdentityIsAt(x: string, i: nat)
    ensures KeywordAt(x, i, "@@identity") ==> At(x, i, '@')
  {
    if KeywordAt(x, i, "@@identity") {
      IdentityStartsWithAt(x, i);
    }
  }

  lemma MarkStep(x: string, scs: bool, s: Scan)
    requires MarkerAt(x, s.at) && s.state.Normal?
    ensures Step(x, scs, s) == BehindPart(s, Mark)
  {
    hide CanOpenAfter, KeywordAt, EmptyValuesAt, StatementIsInsert, TagLength;
    RewritesBy(x, s.at);
    IdentityIsAt(x, s.at);
    var roles, n := s.call.roles, |s.consumed|;
    NoInputs(roles, n);
    OneMoreInput(roles, n, n);
  }

  lemma PairStep(x: string, scs: bool, s: Scan)
    requires PairAt(x, s.at) && s.state.Normal?
    ensures Step(x, scs, s) == BehindPart(s, Pair)
  {
    hide Step, CanOpenAfter, Texts;
    CharacterNotRewritten(x, scs, s, '?');
    NothingConsumed(s, 2, [Question]);
  }

  lemma QuotedStep(x: string, scs: bool, s: Scan)
    requires s.at < |x| && s.state.SingleQuote?
    ensures var u := NextUnit(x, scs, false, s.at, SingleQuote);
            Step(x, scs, s) == s.(at := u.end, output := s.output + Texts(x[s.at..u.end]), state := u.state)
  {
    hide QuotedUnit, KeywordAt, EmptyValuesAt, StatementIsInsert;
  }

  // Inside a literal, up to its end.
  lemma {:induction false} LiteralReached(x: string, scs: bool, s: Scan, value: string, stop: set<char>)
    requires s.state.SingleQuote? && Literal(x, s.at, value) && Intact(value, scs)
    ensures var end := BodyEnd(s.at, value);
            && s.at < end <= |x|
            && Reaches(x, scs, s, s.(at := end, output := s.output + Texts(x[s.at..end]), state := Normal), stop)
    decreases |value|
  {
    hide Reaches, Step, NextUnit, Literal, Intact, UnitWidth, UnitChars, BodyEnd, Texts;
    LiteralUnit(x, scs, false, s.at, value);
    QuotedStep(x, scs, s);
    OneStepReaches(x, scs, s, stop);
    if value == "" {
      EmptyBodyEnd(s.at);
    } else {
      var next, rest := Step(x, scs, s), value[UnitChars(value, scs)..];
      LiteralReached(x, scs, next, rest, stop);
      var end := BodyEnd(s.at, value);
      TextsOn(s.output, x, s.at, next.at, end);
      ReachesOn(x, scs, s, next, s.(at := end, output := s.output + Texts(x[s.at..end]), state := Normal), stop);
    }
  }

  lemma TextsOn(output: seq<Item>, x: string, i: nat, j: nat, k: nat)
    requires i <= j <= k <= |x|
    ensures output + Texts(x[i..j]) + Texts(x[j..k]) == output + Texts(x[i..k])
  {
    hide Texts;
    TextsJoined(x[i..j], x[j..k]);
    assert x[i..k] == x[i..j] + x[j..k];
    assert output + Texts(x[i..j]) + Texts(x[j..k]) == output + (Texts(x[i..j]) + Texts(x[j..k]));
  }

  lemma EmptyBodyEnd(i: nat)
    ensures BodyEnd(i, "") == i + 1
  {
  }

  lemma QuotedReached(x: string, scs: bool, s: Scan, value: string, stop: set<char>)
    requires s.state.Normal? && StandsAt(Written(value), x, s.at) && Intact(value, scs) && QUOTE !in stop
    requires !At(x, s.at + |Written(value)|, QUOTE)
    ensures Reaches(x, scs, s, BehindPart(s, Quoted(value)), stop)
  {
    hide Reaches, Step, Intact, Texts, Written, StandsAt, Literal, BodyEnd, Behind;
    var i, end := s.at, s.at + |Written(value)|;
    WrittenInside(x, i, value);
    QuoteStep(x, scs, s);
    OneStepReaches(x, scs, s, stop);
    LiteralReached(x, scs, Step(x, scs, s), value, stop);
    QuotedItems(s, x, i, end);
    NothingConsumed(s, end - i, Texts(x[i..end]));
    ReachesOn(x, scs, s, Step(x, scs, s), BehindPart(s, Quoted(value)), stop);
  }

  // ---- Text that the lexer passes over ----

  // A unit of the text is a unit where the text stands; only a quote at its end looks behind.
  lemma UnitStands(text: string, scs: bool, i: nat, state: LexState, x: string, base: nat, canOpen: bool)
    requires StandsAt(text, x, base) && i < |text| && (state.Normal? ==> text[i] in {'"', '-', '/', 'E', 'e'})
    requires var u := LexUnit(text, scs, i, state, false);
             !u.unterminated && (if u.end == |text| then u.state.Normal? && !state.Normal? else !u.state.Normal?)
    requires text[|text| - 1] in {QUOTE, '"'} ==> !At(x, base + |text|, text[|text| - 1])
    ensures var u := LexUnit(text, scs, i, state, false);
            LexUnit(x, scs, base + i, state, canOpen) == Unit(base + u.end, u.state, false)
  {
    StandsCharacter(text, x, base, i);
    if i + 1 < |text| {
      StandsCharacter(text, x, base, i + 1);
    }
    hide StandsAt, DollarUnit, TagLength;
  }

  // A step over a unit outside the reach of every rewriting.
  lemma UnitStep(x: string, scs: bool, s: Scan)
    requires s.at < |x| && (s.state.Normal? ==> x[s.at] in {'"', '-', '/', 'E', 'e'})
    ensures var u := LexUnit(x, scs, s.at, s.state, CanOpenAfter(s.output));
            Step(x, scs, s) == s.(at := u.end, output := s.output + Texts(x[s.at..u.end]), state := u.state)
  {
    hide Step, CanOpenAfter, Texts, LexUnit;
    if s.state.Normal? {
      CharacterNotRewritten(x, scs, s, x[s.at]);
    } else {
      NotNormalStep(x, scs, s);
    }
  }

  lemma NotNormalStep(x: string, scs: bool, s: Scan)
    requires s.at < |x| && !s.state.Normal?
    ensures Step(x, scs, s) == PlainStep(x, scs, s)
  {
    hide PlainStep, KeywordAt, EmptyValuesAt, StatementIsInsert;
  }

  lemma {:induction false} EnclosedReached(text: string, scs: bool, i: nat, x: string, base: nat, s: Scan,
                                           stop: set<char>)
    requires StandsAt(text, x, base) && i < |text| && s.at == base + i && Enclosed(text, scs, i, s.state)
    requires if i == 0 then s.state.Normal? && text[0] in {'"', '-', '/', 'E', 'e'} && text[0] !in stop
                            && !LexUnit(text, scs, 0, Normal, false).state.Normal?
             else !s.state.Normal?
    requires text[|text| - 1] in {QUOTE, '"'} ==> !At(x, base + |text|, text[|text| - 1])
    ensures base + |text| <= |x|
    ensures Reaches(x, scs, s, s.(at := base + |text|, output := s.output + Texts(x[s.at..base + |text|]),
                                  state := Normal), stop)
    decreases |text| - i
  {
    hide Reaches, Step, LexUnit, Texts, StandsAt, CanOpenAfter;
    var u, end := LexUnit(text, scs, i, s.state, false), base + |text|;
    StandsInside(text, x, base);
    StandsCharacter(text, x, base, i);
    UnitStands(text, scs, i, s.state, x, base, CanOpenAfter(s.output));
    UnitStep(x, scs, s);
    OneStepReaches(x, scs, s, stop);
    var next := Step(x, scs, s);
    if u.end < |text| {
      EnclosedReached(text, scs, u.end, x, base, next, stop);
      TextsOn(s.output, x, s.at, next.at, end);
      ReachesOn(x, scs, s, next, s.(at := end, output := s.output + Texts(x[s.at..end]), state := Normal), stop);
    }
  }

  lemma StandsInside(text: string, x: string, i: nat)
    requires StandsAt(text, x, i)
    ensures i + |text| <= |x| && x[i..i + |text|] == text
  {
  }

  lemma VerbatimReached(x: string, scs: bool, s: Scan, p: Part, stop: set<char>)
    requires s.state.Normal? && p.Verbatim? && PartPrintable(p, {}, scs) && p.head !in stop
    requires StandsAt(PrintedPart(p), x, s.at)
    requires var end := s.at + |PrintedPart(p)|; end < |x| ==> x[end] !in Joining(p)
    ensures Reaches(x, scs, s, BehindPart(s, p), stop)
  {
    hide Reaches, LexUnit, StandsAt, Enclosed;
    var text := [p.head] + p.tail;
    EnclosedReached(text, scs, 0, x, s.at, s, stop);
    StandsInside(text, x, s.at);
    NothingConsumed(s, |text|, Texts(text));
  }

  lemma WrittenInside(x: string, i: nat, value: string)
    requires StandsAt(Written(value), x, i)
    requires !At(x, i + |Written(value)|, QUOTE)
    ensures At(x, i, QUOTE) && Literal(x, i + 1, value) && BodyEnd(i + 1, value) == i + |Written(value)|
    ensures x[i..i + |Written(value)|] == Written(value)
  {
    hide Doubled, Body;
    assert Written(value) == "'" + (Doubled(value) + "'");
    StandsFirst("'", Doubled(value) + "'", x, i);
    StandsCharacter("'", x, i, 0);
    BodyIsDoubling(x, i + 1, value);
  }

  lemma QuotedItems(s: Scan, x: string, i: nat, end: nat)
    requires i < end <= |x| && x[i] == QUOTE
    ensures s.output + Texts([QUOTE]) + Texts(x[i + 1..end]) == s.output + Texts(x[i..end])
  {
    hide Texts;
    TextsJoined([QUOTE], x[i + 1..end]);
    assert x[i..end] == [QUOTE] + x[i + 1..end];
    assert s.output + Texts([QUOTE]) + Texts(x[i + 1..end]) == s.output + (Texts([QUOTE]) + Texts(x[i + 1..end]));
  }

  lemma NothingConsumed(s: Scan, width: nat, items: seq<Item>)
    ensures Behind(s, width, items, []) == s.(at := s.at + width, output := s.output + items, state := Normal)
  {
    NoInputs(s.call.roles, |s.consumed|);
    assert s.consumed + [] == s.consumed;
  }

  lemma QuoteStep(x: string, scs: bool, s: Scan)
    requires At(x, s.at, QUOTE) && s.state.Normal?
    ensures Step(x, scs, s) == s.(at := s.at + 1, output := s.output + Texts([QUOTE]), state := SingleQuote)
  {
    hide CanOpenAfter, KeywordAt, EmptyValuesAt, StatementIsInsert, TagLength;
    RewritesBy(x, s.at);
    IdentityIsAt(x, s.at);
    assert x[s.at..s.at + 1] == [QUOTE];
  }

  // ---- The head of a function escape ----

  lemma {:induction false} NameRead(x: string, i: nat, name: string, limit: nat)
    requires StandsAt(name, x, i) && |name| <= limit && At(x, i + |name|, '(')
    requires forall c <- name :: c !in FN_NAME_STOP
    ensures NameEnd(x, i, limit, FN_NAME_STOP) == i + |name|
    decreases |name|
  {
    if name != "" {
      assert name == [name[0]] + name[1..];
      StandsFirst([name[0]], name[1..], x, i);
      StandsCharacter(name, x, i, 0);
      assert forall c <- name[1..] :: c in name;
      NameRead(x, i + 1, name[1..], limit - 1);
    }
    NameStep(x, i, limit, FN_NAME_STOP);
  }

  lemma NotKeyword(x: string, i: nat, keyword: string, k: nat)
    requires k < |keyword| && i + k < |x| && Lower(x[i + k]) != Lower(keyword[k])
    ensures !KeywordAt(x, i, keyword)
  {
    if i + |keyword| <= |x| {
      assert x[i..i + |keyword|][k] == x[i + k];
    }
  }

  // A keyword in lower case with a space behind it is that keyword and no other.
  lemma KeywordStands(x: string, i: nat, word: string)
    requires StandsAt(word + " ", x, i)
    ensures KeywordAt(x, i, word)
  {
    StandsFirst(word, " ", x, i);
    StandsCharacter(" ", x, i + |word|, 0);
  }

  lemma EscapeStands(x: string, i: nat, word: string)
    requires word in ["fn", "ts", "d", "t", "oj", "escape"] && StandsAt(word + " ", x, i)
    ensures EscapeAt(x, i) == EscapeOf(word)
  {
    KeywordStands(x, i, word);
    StandsCharacter(word + " ", x, i, 0);
    StandsCharacter(word + " ", x, i, 1);
    hide StandsAt, KeywordAt;
    if word != "fn" {
      NotKeyword(x, i, "fn", 0);
    }
    if word == "t" {
      NotKeyword(x, i, "ts", 1);
    } else if word != "ts" {
      NotKeyword(x, i, "ts", 0);
    }
    if word != "d" {
      NotKeyword(x, i, "d", 0);
    }
    if word != "t" && word != "ts" {
      NotKeyword(x, i, "t", 0);
    }
    if word != "oj" {
      NotKeyword(x, i, "oj", 0);
    }
  }

  function EscapeOf(word: string): Escape {
    if word == "fn" then FunctionEscape
    else if word == "oj" then OuterJoinEscape
    else if word == "escape" then LikeEscape
    else DatetimeEscape(CastOf(word))
  }

  // The keyword, and the body behind the space when it does not begin with a blank.
  lemma EscapeHead(x: string, i: nat, word: string)
    requires word in ["fn", "ts", "d", "t", "oj", "escape"] && StandsAt("{" + word + " ", x, i)
    requires i + |word| + 2 < |x| && !Blank(x[i + |word| + 2])
    ensures At(x, i, '{') && EscapeAt(x, PadEnd(x, i + 1)) == EscapeOf(word)
    ensures BodyStart(x, i) == i + 1 + |word| && BlankEnd(x, i + 1 + |word|) == i + |word| + 2
  {
    hide StandsAt, EscapeAt, PadEnd, BlankEnd;
    HeadStands(x, i, word);
    NoPadding(x, i + 1);
    EscapeStands(x, i + 1, word);
    assert |word| == KeywordLength(EscapeOf(word));
    OneBlank(x, i + 1 + |word|);
  }

  lemma HeadStands(x: string, i: nat, word: string)
    requires StandsAt("{" + word + " ", x, i) && word != "" && word[0] != ' ' && word[0] != '\t'
    ensures At(x, i, '{') && StandsAt(word + " ", x, i + 1) && At(x, i + 1 + |word|, ' ')
    ensures i + 1 < |x| && x[i + 1] != ' ' && x[i + 1] != '\t'
  {
    hide StandsAt;
    assert "{" + word + " " == "{" + (word + " ");
    StandsFirst("{", word + " ", x, i);
    StandsCharacter("{", x, i, 0);
    StandsCharacter(word + " ", x, i + 1, 0);
    StandsCharacter(word + " ", x, i + 1, |word|);
  }

  lemma NoPadding(x: string, i: nat)
    requires i < |x| && x[i] != ' ' && x[i] != '\t'
    ensures PadEnd(x, i) == i
  {
  }

  lemma OneBlank(x: string, i: nat)
    requires At(x, i, ' ') && i + 1 < |x| && !Blank(x[i + 1])
    ensures BlankEnd(x, i) == i + 1
  {
    NotBlank(x, i + 1);
  }

  lemma EscapeOpens(x: string, scs: bool, s: Scan, escape: Escape)
    requires At(x, s.at, '{') && s.state.Normal? && EscapeAt(x, PadEnd(x, s.at + 1)) == escape && !escape.NoEscape?
    ensures Step(x, scs, s) == Escaped(x, scs, s.(at := BodyStart(x, s.at)), escape)
  {
    hide Escaped, EscapeAt, BodyStart, KeywordAt, PadEnd, EmptyValuesAt, StatementIsInsert;
    RewritesBy(x, s.at);
    assert Step(x, scs, s) == OpenBrace(x, scs, s);
  }

  // The parts of the printed call, and where they stand.
  lemma FnParts(x: string, i: nat, name: string, list: string)
    requires StandsAt("{fn " + name + "(" + list + ")}", x, i) && |name| <= MAX_FN_NAME
    requires forall c <- name :: c !in FN_NAME_STOP && !Blank(c)
    ensures At(x, i, '{') && EscapeAt(x, PadEnd(x, i + 1)) == FunctionEscape
    ensures var body, open := BodyStart(x, i), i + 4 + |name|;
            var start := BlankEnd(x, body);
            && NameEnd(x, start, MAX_FN_NAME, FN_NAME_STOP) == open && start <= open && x[start..open] == name
            && At(x, open, '(') && BlankEnd(x, open) == open
            && StandsAt(list + ")", x, open + 1) && At(x, open + 2 + |list|, '}')
            && BlankEnd(x, open + 2 + |list|) == open + 2 + |list|
  {
    hide StandsAt, NameEnd, BlankEnd, PadEnd, EscapeAt, BodyStart;
    FnPieces(x, i, name, list);
    NameRead(x, i + 4, name, MAX_FN_NAME);
    NameFirst(x, i + 4, name);
    assert "{" + "fn" + " " == "{fn ";
    EscapeHead(x, i, "fn");
    StandsInside(name, x, i + 4);
    NotBlank(x, i + 4 + |name|);
    NotBlank(x, i + 6 + |name| + |list|);
  }

  lemma FnPieces(x: string, i: nat, name: string, list: string)
    requires StandsAt("{fn " + name + "(" + list + ")}", x, i)
    ensures StandsAt("{fn ", x, i) && StandsAt(name, x, i + 4) && At(x, i + 4 + |name|, '(')
    ensures StandsAt(list + ")", x, i + 5 + |name|) && At(x, i + 6 + |name| + |list|, '}')
  {
    hide StandsAt;
    FnText(name, list);
    StandsFirst("{fn ", name + ("(" + (list + ")" + "}")), x, i);
    StandsFirst(name, "(" + (list + ")" + "}"), x, i + 4);
    StandsFirst("(", list + ")" + "}", x, i + 4 + |name|);
    StandsFirst(list + ")", "}", x, i + 5 + |name|);
    StandsCharacter("(", x, i + 4 + |name|, 0);
    StandsCharacter("}", x, i + 6 + |name| + |list|, 0);
  }

  lemma FnText(name: string, list: string)
    ensures "{fn " + name + "(" + list + ")}" == "{fn " + (name + ("(" + (list + ")" + "}")))
  {
  }

  lemma NotBlank(x: string, i: nat)
    requires i < |x| && !Blank(x[i])
    ensures BlankEnd(x, i) == i
  {
  }

  lemma NameFirst(x: string, i: nat, name: string)
    requires StandsAt(name, x, i) && At(x, i + |name|, '(') && forall c <- name :: !Blank(c)
    ensures i < |x| && !Blank(x[i])
  {
    if name != "" {
      StandsCharacter(name, x, i, 0);
    }
  }

  // ---- Reading a tree ----

  lemma GroupBehind(s: Scan, inner: seq<Part>)
    requires s.state.Normal?
    ensures var t := BehindParts(Replaced(s, s.at + 1, "("), inner);
            Replaced(t, t.at + 1, ")") == BehindPart(s, Group(inner))
  {
    hide Printed, Meaning, Marks, Texts, WithInputs;
    var meaning := Meaning(inner, s.at + 1, |s.consumed|);
    assert s.output + Texts("(") + meaning + Texts(")") == s.output + (Texts("(") + meaning + Texts(")"));
  }

  lemma PartCollected(x: string, scs: bool, s: Scan, p: Part, barred: set<char>, depth: nat, arguments: seq<seq<Item>>,
                      content: bool, room: nat)
    requires s.state.Normal? && depth >= 1 && (',' !in barred ==> depth > 1) && PartPrintable(p, barred, scs)
    requires PartKept(x, p, s.at, InCall)
    requires StandsAt(PrintedPart(p), x, s.at)
    requires var end := s.at + |PrintedPart(p)|; end < |x| ==> x[end] !in Joining(p)
    ensures Collect(x, scs, s, depth, arguments, content, room) ==
            Collect(x, scs, BehindPart(s, p), depth, arguments, content || PartHasContent(p), room)
    decreases p, 3
  {
    hide Collect, Step, Behind, StandsAt, PrintedPart, PartMeaning, PartMarks, Kept, Printable, Reaches;
    PrintedInside(p, x, s.at);
    if p.Group? {
      GroupUnfold(p.inner);
      GroupCollected(x, scs, s, p.inner, barred, depth, arguments, content, room);
    } else if p.Plain? {
      CollectStep(x, scs, s, depth, arguments, content, room);
      PlainUnfold(p.c);
      CharacterStep(x, scs, s, p.c);
    } else {
      LeafReached(x, scs, s, p, barred, {'(', ')', ','}, InCall);
      LeafCollected(x, scs, s, p, depth, arguments, content, room);
    }
  }

  lemma PrintedInside(p: Part, x: string, i: nat)
    requires StandsAt(PrintedPart(p), x, i)
    ensures At(x, i, FirstCharacter(p)) && i + |PrintedPart(p)| <= |x|
  {
    hide PrintedPart;
    FirstPrinted(p);
    StandsCharacter(PrintedPart(p), x, i, 0);
  }

  lemma PlainUnfold(c: char)
    ensures PrintedPart(Plain(c)) == [c]
  {
  }

  lemma GroupUnfold(inner: seq<Part>)
    ensures PrintedPart(Group(inner)) == "(" + Printed(inner) + ")"
  {
  }

  // Steps that lead behind a part are turns of the collection.
  lemma LeafCollected(x: string, scs: bool, s: Scan, p: Part, depth: nat, arguments: seq<seq<Item>>, content: bool,
                      room: nat)
    requires s.state.Normal? && depth >= 1 && At(x, s.at, FirstCharacter(p)) && !p.Plain? && !p.Group?
    requires FirstCharacter(p) in {QUOTE, '?', '{', '"', '-', '/', 'E', 'e'} && s.at + |PrintedPart(p)| <= |x|
    requires Reaches(x, scs, s, BehindPart(s, p), {'(', ')', ','})
    ensures Collect(x, scs, s, depth, arguments, content, room) ==
            Collect(x, scs, BehindPart(s, p), depth, arguments, true, room)
  {
    hide Collect, Step, PrintedPart, PartMeaning, PartMarks;
    var t := BehindPart(s, p);
    assert t.at != s.at;
    CollectStep(x, scs, s, depth, arguments, content, room);
    CollectReaches(x, scs, Step(x, scs, s), t, {'(', ')', ','}, depth, arguments, room);
  }

  lemma GroupCollected(x: string, scs: bool, s: Scan, inner: seq<Part>, barred: set<char>, depth: nat,
                       arguments: seq<seq<Item>>, content: bool, room: nat)
    requires s.state.Normal? && depth >= 1 && Printable(inner, barred - {','}, scs) && Kept(x, inner, s.at + 1, InCall)
    requires StandsAt("(" + Printed(inner) + ")", x, s.at)
    ensures Collect(x, scs, s, depth, arguments, content, room) ==
            Collect(x, scs, BehindPart(s, Group(inner)), depth, arguments, content || HasContent(inner), room)
    decreases inner, 5
  {
    hide Collect, Step, Behind, StandsAt, Printed, Meaning, Marks, AllCollected, HasContent, Printable, Kept;
    var open := Replaced(s, s.at + 1, "(");
    StandsFirst("(" + Printed(inner), ")", x, s.at);
    StandsFirst("(", Printed(inner), x, s.at);
    StandsCharacter("(", x, s.at, 0);
    StandsCharacter(")", x, s.at + 1 + |Printed(inner)|, 0);
    ReplacedFields(s, s.at + 1, "(");
    CollectHere(x, scs, s, depth, arguments, content, room);
    PartsCollected(x, scs, open, inner, barred - {','}, depth + 1, arguments, content, room);
    var t := BehindParts(open, inner);
    BehindFields(open, |Printed(inner)|, Meaning(inner, open.at, |open.consumed|), Marks(inner, open.at));
    CollectHere(x, scs, t, depth + 1, arguments, content || HasContent(inner), room);
    GroupBehind(s, inner);
  }

  lemma PartsCollected(x: string, scs: bool, s: Scan, parts: seq<Part>, barred: set<char>, depth: nat,
                       arguments: seq<seq<Item>>, content: bool, room: nat)
    requires s.state.Normal? && depth >= 1 && (',' !in barred ==> depth > 1) && Printable(parts, barred, scs)
    requires Kept(x, parts, s.at, InCall)
    requires StandsAt(Printed(parts), x, s.at) && Ends(x, s.at + |Printed(parts)|)
    ensures Collect(x, scs, s, depth, arguments, content, room) ==
            Collect(x, scs, BehindParts(s, parts), depth, arguments, content || HasContent(parts), room)
    decreases parts, 4
  {
    hide Collect, Behind, StandsAt, PrintedPart, PartMeaning, PartMarks, PartHasContent, PartPrintable, Joining;
    hide PartKept;
    if parts == [] {
      BehindNothing(s);
    } else {
      var p, rest := parts[0], parts[1..];
      var t := BehindPart(s, p);
      PartsUnfold(parts, s.at, |s.consumed|);
      StandsFirst(PrintedPart(p), Printed(rest), x, s.at);
      NotJoined(p, rest, x, s.at + |PrintedPart(p)|);
      PartCollected(x, scs, s, p, barred, depth, arguments, content, room);
      BehindFields(s, |PrintedPart(p)|, PartMeaning(p, s.at, |s.consumed|), PartMarks(p, s.at));
      PartsCollected(x, scs, t, rest, barred, depth, arguments, content || PartHasContent(p), room);
      BehindFirst(s, parts);
    }
  }

  // What the collection of printed arguments yields, behind those collected before.
  ghost predicate ArgumentsRead(s: Scan, list: seq<Argument>, before: seq<seq<Item>>, c: Collected) {
    var meanings := ArgumentMeanings(list, s.at, |s.consumed|);
    && c.arguments == Some(if before == [] then Given(list, meanings) else before + meanings)
    && c.scan.(output := []) == Behind(s, |PrintedArguments(list)| + 1, [], ArgumentMarks(list, s.at))
  }

  // An argument in front of the ')' of the call, and one in front of a comma.
  lemma LastCollected(x: string, scs: bool, s: Scan, parts: seq<Part>, before: seq<seq<Item>>, room: nat)
    requires s.state.Normal? && Printable(parts, {','}, scs) && Kept(x, parts, s.at, InCall)
    requires StandsAt(Printed(parts), x, s.at) && At(x, s.at + |Printed(parts)|, ')')
    ensures var t := BehindParts(s, parts);
            Collect(x, scs, s, 1, before, false, room) ==
            AllCollected(t.(at := t.at + 1), before, HasContent(parts), room)
    decreases parts, 5
  {
    hide Collect, StandsAt, Printed, Meaning, Marks, Printable, HasContent, Behind, AllCollected, Kept;
    BehindFields(s, |Printed(parts)|, Meaning(parts, s.at, |s.consumed|), Marks(parts, s.at));
    PartsCollected(x, scs, s, parts, {','}, 1, before, false, room);
    CollectHere(x, scs, BehindParts(s, parts), 1, before, HasContent(parts), room);
  }

  lemma OneMoreCollected(x: string, scs: bool, s: Scan, parts: seq<Part>, before: seq<seq<Item>>, room: nat)
    requires s.state.Normal? && Printable(parts, {','}, scs) && |before| < room
    requires Kept(x, parts, s.at, InCall)
    requires StandsAt(Printed(parts), x, s.at) && At(x, s.at + |Printed(parts)|, ',')
    ensures var t := BehindParts(s, parts);
            Collect(x, scs, s, 1, before, false, room) ==
            Collect(x, scs, t.(at := t.at + 1, output := []), 1, before + [t.output], false, room)
    decreases parts, 5
  {
    hide Collect, StandsAt, Printed, Meaning, Marks, Printable, HasContent, Behind, AllCollected, Kept;
    BehindFields(s, |Printed(parts)|, Meaning(parts, s.at, |s.consumed|), Marks(parts, s.at));
    PartsCollected(x, scs, s, parts, {','}, 1, before, false, room);
    CollectHere(x, scs, BehindParts(s, parts), 1, before, HasContent(parts), room);
  }

  // Where the parts of a printed list stand.
  lemma OneArgumentStands(list: seq<Argument>, x: string, i: nat)
    requires |list| == 1 && StandsAt(PrintedArguments(list) + ")", x, i)
    ensures var text := Printed(list[0].parts);
            StandsAt(text, x, i) && At(x, i + |text|, ')')
  {
    var text := Printed(list[0].parts);
    hide StandsAt, Printed;
    StandsFirst(text, ")", x, i);
    StandsCharacter(")", x, i + |text|, 0);
  }

  lemma MoreArgumentsStand(list: seq<Argument>, x: string, i: nat)
    requires |list| > 1 && StandsAt(PrintedArguments(list) + ")", x, i)
    ensures var text := Printed(list[0].parts);
            && StandsAt(text, x, i) && At(x, i + |text|, ',')
            && StandsAt(PrintedArguments(list[1..]) + ")", x, i + |text| + 1)
  {
    hide StandsAt, Printed;
    var text, others := Printed(list[0].parts), PrintedArguments(list[1..]);
    ListText(text, others);
    assert PrintedArguments(list) == text + "," + others;
    hide PrintedArguments;
    StandsFirst(text, "," + (others + ")"), x, i);
    StandsFirst(",", others + ")", x, i + |text|);
    StandsCharacter(",", x, i + |text|, 0);
  }

  lemma ListText(text: string, others: string)
    ensures text + "," + others + ")" == text + ("," + (others + ")"))
  {
  }

  lemma ArgumentsCollected(x: string, scs: bool, s: Scan, list: seq<Argument>, before: seq<seq<Item>>, room: nat)
    requires s.state.Normal? && s.output == [] && list != [] && |before| + |list| <= room
    requires (forall a <- list :: Printable(a.parts, {','}, scs)) && ArgumentsKept(x, list, s.at)
    requires StandsAt(PrintedArguments(list) + ")", x, s.at)
    ensures ArgumentsRead(s, list, before, Collect(x, scs, s, 1, before, false, room))
    decreases list, 6
  {
    hide Collect, StandsAt, Printed, Meaning, Marks, Printable, HasContent, Behind, PrintedArguments, AllCollected;
    hide ArgumentsRead, Kept;
    var first, rest := list[0].parts, list[1..];
    var t := BehindParts(s, first);
    BehindFields(s, |Printed(first)|, Meaning(first, s.at, |s.consumed|), Marks(first, s.at));
    if |list| == 1 {
      OneArgumentStands(list, x, s.at);
      LastCollected(x, scs, s, first, before, room);
      LastRead(s, list, before, room);
    } else {
      MoreArgumentsStand(list, x, s.at);
      OneMoreCollected(x, scs, s, first, before, room);
      var next := t.(at := t.at + 1, output := []);
      ArgumentsCollected(x, scs, next, rest, before + [t.output], room);
      OneMoreRead(s, list, before, Collect(x, scs, next, 1, before + [t.output], false, room));
    }
  }

  lemma LastRead(s: Scan, list: seq<Argument>, before: seq<seq<Item>>, room: nat)
    requires s.output == [] && |list| == 1 && |before| < room
    ensures var t := BehindParts(s, list[0].parts);
            ArgumentsRead(s, list, before, AllCollected(t.(at := t.at + 1), before, HasContent(list[0].parts), room))
  {
    hide Printed, Meaning, Marks, HasContent, WithInputs;
    var parts, i, n := list[0].parts, s.at, |s.consumed|;
    assert list[1..] == [];
    OneArgument(list, i, n);
    hide ArgumentMarks, ArgumentMeanings, PrintedArguments;
    var none: seq<Item> := [];
    assert none + Meaning(parts, i, n) == Meaning(parts, i, n);
    var noArguments: seq<seq<Item>> := [];
    assert noArguments + [Meaning(parts, i, n)] == [Meaning(parts, i, n)];
  }

  lemma OneArgument(list: seq<Argument>, i: nat, n: nat)
    requires |list| == 1
    ensures PrintedArguments(list) == Printed(list[0].parts)
    ensures ArgumentMarks(list, i) == Marks(list[0].parts, i)
    ensures ArgumentMeanings(list, i, n) == [Meaning(list[0].parts, i, n)]
  {
    hide Printed, Meaning, Marks;
    assert list[1..] == [];
  }

  lemma OneMoreRead(s: Scan, list: seq<Argument>, before: seq<seq<Item>>, c: Collected)
    requires s.output == [] && |list| > 1
    requires var t := BehindParts(s, list[0].parts);
             ArgumentsRead(t.(at := t.at + 1, output := []), list[1..], before + [t.output], c)
    ensures ArgumentsRead(s, list, before, c)
  {
    hide Printed, Meaning, Marks, HasContent, WithInputs, ArgumentMeanings, ArgumentMarks, PrintedArguments;
    var parts, rest, i, n := list[0].parts, list[1..], s.at, |s.consumed|;
    ArgumentsUnfold(list, i, n);
    var t := BehindParts(s, parts);
    var next := t.(at := t.at + 1, output := []);
    assert next == Behind(s, |Printed(parts)| + 1, [], Marks(parts, i));
    var more := ArgumentMarks(rest, next.at);
    BehindJoined(s, |Printed(parts)| + 1, [], Marks(parts, i), |PrintedArguments(rest)| + 1, [], more);
    var meanings := ArgumentMeanings(rest, next.at, |next.consumed|);
    assert t.output == Meaning(parts, i, n);
    assert before + [t.output] + meanings == before + ([t.output] + meanings);
    var none: seq<seq<Item>> := [];
    assert none + ([t.output] + meanings) == [t.output] + meanings;
  }

  lemma ArgumentsUnfold(list: seq<Argument>, i: nat, n: nat)
    requires |list| > 1
    ensures var parts, rest := list[0].parts, list[1..];
            var next := i + |Printed(parts)| + 1;
            && |PrintedArguments(list)| == |Printed(parts)| + 1 + |PrintedArguments(rest)|
            && ArgumentMarks(list, i) == Marks(parts, i) + ArgumentMarks(rest, next)
            && ArgumentMeanings(list, i, n) ==
               [Meaning(parts, i, n)] + ArgumentMeanings(rest, next, n + |Marks(parts, i)|)
  {
    hide Printed, Meaning, Marks;
  }

  /**
   One step of the scanner reads a whole printed function escape, however deep others are nested in
   it, and leaves its meaning: each call expanded from the meanings of its arguments, every marker
   under the next number.
   */
  lemma FnStep(x: string, scs: bool, s: Scan, p: Part)
    requires s.state.Normal? && p.Fn? && PartPrintable(p, {}, scs) && PartKept(x, p, s.at, InCall)
    requires StandsAt(PrintedPart(p), x, s.at)
    ensures Step(x, scs, s) == BehindPart(s, p)
    decreases p, 0
  {
    hide Step, StandsAt, PrintedArguments, ArgumentMeanings, ArgumentMarks, FunctionText, Collect, Printable, Given;
    hide NameEnd, BlankEnd, PadEnd, EscapeAt, BodyStart, FunctionEscaped, Behind, PrintedPart, PartMeaning, PartMarks;
    hide ArgumentsKept;
    var list, open := PrintedArguments(p.arguments), s.at + 4 + |p.name|;
    FnUnfold(p, s.at, |s.consumed|);
    FnParts(x, s.at, p.name, list);
    EscapeOpens(x, scs, s, FunctionEscape);
    var t := s.(at := open + 1, output := []);
    ArgumentsCollected(x, scs, t, p.arguments, [], MAX_FN_ARGUMENTS);
    FnEscaped(x, scs, s.(at := BodyStart(x, s.at)), p.name, open);
    FnBehind(x, s, p, Collect(x, scs, t, 1, [], false, MAX_FN_ARGUMENTS));
  }

  lemma FnUnfold(p: Part, i: nat, n: nat)
    requires p.Fn?
    ensures PrintedPart(p) == "{fn " + p.name + "(" + PrintedArguments(p.arguments) + ")}"
    ensures |PrintedPart(p)| == |p.name| + |PrintedArguments(p.arguments)| + 7
    ensures PartMarks(p, i) == ArgumentMarks(p.arguments, i + |p.name| + 5)
    ensures PartMeaning(p, i, n) ==
            FunctionText(p.name, Given(p.arguments, ArgumentMeanings(p.arguments, i + |p.name| + 5, n)))
  {
    hide PrintedArguments, ArgumentMeanings, ArgumentMarks, FunctionText, Given;
  }

  // What the handler of the escape does, once its name and its '(' are found.
  lemma FnEscaped(x: string, scs: bool, s: Scan, name: string, open: nat)
    requires s.at <= |x| && At(x, open, '(') && BlankEnd(x, open) == open
    requires var start := BlankEnd(x, s.at);
             NameEnd(x, start, MAX_FN_NAME, FN_NAME_STOP) == open && start <= open && x[start..open] == name
    ensures var c := Collect(x, scs, s.(at := open + 1, output := []), 1, [], false, MAX_FN_ARGUMENTS);
            c.arguments.Some? ==>
              FunctionEscaped(x, scs, s) ==
              FunctionClosed(x, c.scan.(output := s.output), FunctionText(name, c.arguments.value))
  {
    hide NameEnd, BlankEnd, Collect, FunctionText, FunctionClosed;
  }

  lemma FnBehind(x: string, s: Scan, p: Part, c: Collected)
    requires p.Fn? && c.scan.at <= |x|
    requires ArgumentsRead(s.(at := s.at + |p.name| + 5, output := []), p.arguments, [], c)
    requires var end := s.at + |p.name| + 6 + |PrintedArguments(p.arguments)|;
             At(x, end, '}') && BlankEnd(x, end) == end
    ensures c.arguments.Some?
    ensures FunctionClosed(x, c.scan.(output := s.output), FunctionText(p.name, c.arguments.value)) == BehindPart(s, p)
  {
    hide PrintedArguments, ArgumentMeanings, ArgumentMarks, FunctionText, BlankEnd, WithInputs, Given;
    FnUnfold(p, s.at, |s.consumed|);
  }

  // ---- The other escapes ----

  // The parts of the printed escape, and where they stand.
  lemma BodyStands(x: string, i: nat, word: string, text: string)
    requires word in ["fn", "ts", "d", "t", "oj", "escape"] && StandsAt("{" + word + " " + text + "}", x, i)
    requires text != "" ==> !Blank(text[0])
    ensures At(x, i, '{') && EscapeAt(x, PadEnd(x, i + 1)) == EscapeOf(word)
    ensures BlankEnd(x, BodyStart(x, i)) == i + |word| + 2
    ensures StandsAt(text, x, i + |word| + 2) && At(x, i + |word| + 2 + |text|, '}')
  {
    hide StandsAt;
    var head := "{" + word + " ";
    StandsFirst(head + text, "}", x, i);
    StandsFirst(head, text, x, i);
    StandsCharacter("}", x, i + |head| + |text|, 0);
    if text != "" {
      StandsCharacter(text, x, i + |head|, 0);
    }
    EscapeHead(x, i, word);
  }

  lemma {:induction false} BraceStands(x: string, i: nat, text: string)
    requires StandsAt(text, x, i) && At(x, i + |text|, '}') && forall c <- text :: c != '}'
    ensures BraceAt(x, i) == i + |text| && BehindBrace(x, i) == i + |text| + 1
    decreases |text|
  {
    if text != "" {
      hide StandsAt;
      StandsTail(text, x, i);
      BraceStands(x, i + 1, text[1..]);
    }
  }

  lemma LikeStep(x: string, scs: bool, s: Scan, pattern: string)
    requires s.state.Normal? && BodyText(pattern) && StandsAt("{escape " + pattern + "}", x, s.at)
    ensures Step(x, scs, s) == BehindPart(s, Like(pattern))
  {
    hide Step, StandsAt, EscapeAt, PadEnd, BlankEnd, BodyStart, BraceAt, BehindBrace, Texts;
    assert "{escape " + pattern + "}" == "{" + "escape" + " " + pattern + "}";
    BodyStands(x, s.at, "escape", pattern);
    BraceStands(x, s.at + 8, pattern);
    StandsInside(pattern, x, s.at + 8);
    EscapeOpens(x, scs, s, LikeEscape);
    NothingConsumed(s, |pattern| + 9, Texts("ESCAPE " + pattern));
  }

  predicate Padded(text: string) {
    forall c <- text :: c == ' ' || c == '\t'
  }

  lemma PaddedParts(a: string, b: string)
    ensures Padded(a + b) <==> Padded(a) && Padded(b)
  {
    assert forall c <- a + b :: c in a || c in b;
    assert forall c <- a :: c in a + b;
    assert forall c <- b :: c in a + b;
  }

  lemma PaddedOne(c: char)
    ensures Padded([c]) <==> c == ' ' || c == '\t'
  {
    assert c in [c];
  }

  lemma {:induction false} PaddingStands(x: string, i: nat, text: string)
    requires StandsAt(text, x, i) && At(x, i + |text|, '}') && forall c <- text :: c != '}'
    ensures At(x, PadEnd(x, i), '}') <==> Padded(text)
    decreases |text|
  {
    hide StandsAt, Padded;
    if text == "" {
      EmptyTrimmed();
    } else {
      StandsTail(text, x, i);
      PaddingStands(x, i + 1, text[1..]);
      PaddedParts([text[0]], text[1..]);
      PaddedOne(text[0]);
      assert text == [text[0]] + text[1..] && text[0] in text;
    }
  }

  lemma TrimLast(front: string, last: char)
    ensures TrimPadding(front + [last]) == if last == ' ' || last == '\t' then TrimPadding(front) else front + [last]
  {
    var text := front + [last];
    assert text[..|text| - 1] == front && text[|text| - 1] == last;
  }

  lemma {:induction false} TrimFront(text: string)
    requires text != ""
    ensures TrimPadding(text) == if Padded(text) then "" else [text[0]] + TrimPadding(text[1..])
    decreases |text|
  {
    hide Padded, TrimPadding;
    var last, front := text[|text| - 1], text[..|text| - 1];
    assert text == front + [last];
    PaddedParts(front, [last]);
    PaddedOne(last);
    TrimLast(front, last);
    EmptyTrimmed();
    if front == "" {
      assert text == [last] && text[1..] == "";
    } else {
      assert text[1..] == front[1..] + [last];
      TrimLast(front[1..], last);
      TrimFront(front);
    }
  }

  lemma {:induction false} StampBody(x: string, i: nat, text: string)
    requires StandsAt(text, x, i) && At(x, i + |text|, '}') && forall c <- text :: c != '}'
    ensures DatetimeBody(x, i) == TrimPadding(text)
    decreases |text|
  {
    hide PadEnd, TrimPadding, Padded, StandsAt;
    PaddingStands(x, i, text);
    if text == "" {
      EmptyTrimmed();
    } else {
      StandsTail(text, x, i);
      assert text[0] in text;
      StampBody(x, i + 1, text[1..]);
      TrimFront(text);
    }
  }

  lemma EmptyTrimmed()
    ensures TrimPadding("") == "" && Padded("")
  {
  }

  lemma StampStep(x: string, scs: bool, s: Scan, keyword: string, value: string)
    requires s.state.Normal? && keyword in ["d", "t", "ts"] && BodyText(value)
    requires StandsAt("{" + keyword + " " + value + "}", x, s.at)
    ensures Step(x, scs, s) == BehindPart(s, Stamp(keyword, value))
  {
    hide Step, StandsAt, EscapeAt, PadEnd, BlankEnd, BodyStart, BraceAt, BehindBrace, Texts, DatetimeBody, TrimPadding;
    hide CastOf;
    BodyStands(x, s.at, keyword, value);
    BraceStands(x, s.at + |keyword| + 2, value);
    StampBody(x, s.at + |keyword| + 2, value);
    EscapeOpens(x, scs, s, DatetimeEscape(CastOf(keyword)));
    NothingConsumed(s, |keyword| + |value| + 3, Texts(TrimPadding(value) + CastOf(keyword)));
  }

  // A join is opened and its body copied.
  lemma JoinOpens(x: string, scs: bool, s: Scan, body: seq<Part>)
    requires s.state.Normal? && (body != [] ==> !Blank(FirstCharacter(body[0])))
    requires StandsAt(PrintedPart(Join(body)), x, s.at)
    ensures Step(x, scs, s) == CopyBody(x, scs, s.(at := s.at + 4))
    ensures StandsAt(Printed(body), x, s.at + 4) && At(x, s.at + 4 + |Printed(body)|, '}')
  {
    hide Step, StandsAt, Printed, EscapeAt, PadEnd, BlankEnd, BodyStart, CopyBody;
    var text := Printed(body);
    assert "{oj " + text + "}" == "{" + "oj" + " " + text + "}";
    TextNotBlank(body);
    BodyStands(x, s.at, "oj", text);
    EscapeOpens(x, scs, s, OuterJoinEscape);
  }

  lemma TextNotBlank(body: seq<Part>)
    requires body != [] ==> !Blank(FirstCharacter(body[0]))
    ensures Printed(body) != "" ==> !Blank(Printed(body)[0])
  {
    hide PrintedPart;
    if body != [] {
      FirstPrinted(body[0]);
    }
  }

  lemma JoinCloses(x: string, scs: bool, s: Scan)
    requires At(x, s.at, '}') && s.state.Normal?
    ensures CopyBody(x, scs, s) == s.(at := s.at + 1)
  {
    hide Step;
  }

  lemma JoinBehind(s: Scan, body: seq<Part>)
    ensures var t := BehindParts(s.(at := s.at + 4), body); t.(at := t.at + 1) == BehindPart(s, Join(body))
  {
    hide Printed, Meaning, Marks, WithInputs;
  }

  /** One step reads a printed outer join and leaves what its body means. */
  lemma JoinStep(x: string, scs: bool, s: Scan, body: seq<Part>)
    requires s.state.Normal? && PartPrintable(Join(body), {}, scs) && Kept(x, body, s.at + 4, Everywhere)
    requires StandsAt(PrintedPart(Join(body)), x, s.at)
    ensures Step(x, scs, s) == BehindPart(s, Join(body))
    decreases body, 5
  {
    hide Step, StandsAt, PrintedPart, Printed, CopyBody, Printable, Kept, Meaning, Marks, Behind, Reaches;
    JoinOpens(x, scs, s, body);
    var inside := s.(at := s.at + 4);
    PartsReached(x, scs, inside, body, {'}'}, {'}'});
    var t := BehindParts(inside, body);
    BehindFields(inside, |Printed(body)|, Meaning(body, inside.at, |inside.consumed|), Marks(body, inside.at));
    CopyReaches(x, scs, inside, t, {'}'});
    JoinCloses(x, scs, t);
    JoinBehind(s, body);
  }

  // ---- Stepping over parts ----

  // Every part but a group begins with a step and ends with one.
  lemma LeafReached(x: string, scs: bool, s: Scan, p: Part, barred: set<char>, stop: set<char>, checks: Checks)
    requires s.state.Normal? && !p.Group? && PartPrintable(p, barred, scs) && checks in {Everywhere, InCall}
    requires PartKept(x, p, s.at, checks) && StandsAt(PrintedPart(p), x, s.at) && FirstCharacter(p) !in stop
    requires var end := s.at + |PrintedPart(p)|; end < |x| ==> x[end] !in Joining(p)
    ensures Reaches(x, scs, s, BehindPart(s, p), stop)
    decreases p, 1
  {
    hide Reaches, Step, Behind, StandsAt, Printed, PrintedArguments, Meaning, Marks, FunctionText, Written, Enclosed;
    hide ArgumentsKept, Kept, Printable, BodyText, Texts, TrimPadding, CastOf;
    PrintedInside(p, x, s.at);
    match p
    case Plain(c) =>
      CharacterStep(x, scs, s, c);
      OneStepReaches(x, scs, s, stop);
    case Quoted(literal) => QuotedReached(x, scs, s, literal, stop);
    case Verbatim(_, _) => VerbatimReached(x, scs, s, p, stop);
    case Mark =>
      MarkStep(x, scs, s);
      OneStepReaches(x, scs, s, stop);
    case Pair =>
      StandsCharacter("??", x, s.at, 1);
      PairStep(x, scs, s);
      OneStepReaches(x, scs, s, stop);
    case Fn(name, list) =>
      FnStep(x, scs, s, p);
      OneStepReaches(x, scs, s, stop);
    case Join(body) =>
      JoinStep(x, scs, s, body);
      OneStepReaches(x, scs, s, stop);
    case Like(pattern) =>
      LikeStep(x, scs, s, pattern);
      OneStepReaches(x, scs, s, stop);
    case Stamp(keyword, value) =>
      StampStep(x, scs, s, keyword, value);
      OneStepReaches(x, scs, s, stop);
  }

  // A parenthesis that is not rewritten.
  lemma ParenthesisReached(x: string, scs: bool, s: Scan, stop: set<char>)
    requires s.at < |x| && x[s.at] in {'(', ')'} && s.state.Normal? && (x[s.at] == '(' ==> Stays(x, s.at))
    requires x[s.at] !in stop
    ensures Reaches(x, scs, s, Replaced(s, s.at + 1, [x[s.at]]), stop)
  {
    hide Reaches, Step, PlainStep, Replaced, StatementIsInsert, KeywordAt, EmptyValuesAt;
    RewritesBy(x, s.at);
    StepIsPlain(x, scs, s);
    ParenthesisStep(x, scs, s);
    OneStepReaches(x, scs, s, stop);
  }

  lemma GroupReached(x: string, scs: bool, s: Scan, inner: seq<Part>, barred: set<char>, stop: set<char>)
    requires s.state.Normal? && Printable(inner, barred - {','}, scs) && stop <= barred * {'}'}
    requires Stays(x, s.at) && Kept(x, inner, s.at + 1, Everywhere)
    requires StandsAt("(" + Printed(inner) + ")", x, s.at)
    ensures Reaches(x, scs, s, BehindPart(s, Group(inner)), stop)
    decreases inner, 5
  {
    hide Reaches, Step, Behind, StandsAt, Printed, Meaning, Marks, Printable, Kept, Stays;
    var open := Replaced(s, s.at + 1, "(");
    GroupStands(x, s.at, inner);
    ParenthesisReached(x, scs, s, stop);
    PartsReached(x, scs, open, inner, barred - {','}, stop);
    var t := BehindParts(open, inner);
    BehindFields(open, |Printed(inner)|, Meaning(inner, open.at, |open.consumed|), Marks(inner, open.at));
    ParenthesisReached(x, scs, t, stop);
    GroupBehind(s, inner);
    ReachesOn(x, scs, s, open, t, stop);
    ReachesOn(x, scs, s, t, BehindPart(s, Group(inner)), stop);
  }

  lemma GroupStands(x: string, i: nat, inner: seq<Part>)
    requires StandsAt("(" + Printed(inner) + ")", x, i)
    ensures At(x, i, '(') && StandsAt(Printed(inner), x, i + 1) && At(x, i + 1 + |Printed(inner)|, ')')
  {
    hide StandsAt, Printed;
    StandsFirst("(" + Printed(inner), ")", x, i);
    StandsFirst("(", Printed(inner), x, i);
    StandsCharacter("(", x, i, 0);
    StandsCharacter(")", x, i + 1 + |Printed(inner)|, 0);
  }

  lemma PartReached(x: string, scs: bool, s: Scan, p: Part, barred: set<char>, stop: set<char>)
    requires s.state.Normal? && PartPrintable(p, barred, scs) && stop <= barred * {'}'}
    requires PartKept(x, p, s.at, Everywhere) && StandsAt(PrintedPart(p), x, s.at)
    requires var end := s.at + |PrintedPart(p)|; end < |x| ==> x[end] !in Joining(p)
    ensures Reaches(x, scs, s, BehindPart(s, p), stop)
    decreases p, 3
  {
    hide Reaches, Behind, StandsAt, Printed, Kept, Printable, ArgumentsKept, Stays, Enclosed, BodyText, Joining;
    if p.Group? {
      GroupReached(x, scs, s, p.inner, barred, stop);
    } else {
      LeafReached(x, scs, s, p, barred, stop, Everywhere);
    }
  }

  lemma PartsReached(x: string, scs: bool, s: Scan, parts: seq<Part>, barred: set<char>, stop: set<char>)
    requires s.state.Normal? && Printable(parts, barred, scs) && stop <= barred * {'}'}
    requires Kept(x, parts, s.at, Everywhere)
    requires StandsAt(Printed(parts), x, s.at) && Ends(x, s.at + |Printed(parts)|)
    ensures Reaches(x, scs, s, BehindParts(s, parts), stop)
    decreases parts, 4
  {
    hide Reaches, Behind, StandsAt, PrintedPart, PartMeaning, PartMarks, PartPrintable, PartKept, Joining;
    if parts == [] {
      BehindNothing(s);
      ReachesItself(x, scs, s, stop);
    } else {
      var p, rest := parts[0], parts[1..];
      var t := BehindPart(s, p);
      PartsUnfold(parts, s.at, |s.consumed|);
      StandsFirst(PrintedPart(p), Printed(rest), x, s.at);
      NotJoined(p, rest, x, s.at + |PrintedPart(p)|);
      PartReached(x, scs, s, p, barred, stop);
      BehindFields(s, |PrintedPart(p)|, PartMeaning(p, s.at, |s.consumed|), PartMarks(p, s.at));
      PartsReached(x, scs, t, rest, barred, stop);
      BehindFirst(s, parts);
      ReachesOn(x, scs, s, t, BehindParts(s, parts), stop);
    }
  }

  lemma ReachesItself(x: string, scs: bool, s: Scan, stop: set<char>)
    ensures Reaches(x, scs, s, s, stop)
  {
  }
}
