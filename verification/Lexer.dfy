/**
 The lexical structure of PostgreSQL text as the driver follows it: string literals, escape
 strings, quoted identifiers, dollar-quoted bodies, line comments and nested block comments.
 */
module SqlLexer {

  datatype LexState = Normal | SingleQuote | EscapeString | DoubleQuote | LineComment | BlockComment(depth: nat)

  datatype ScanState =
    NORMAL | IN_SINGLE_QUOTE | IN_ESCAPE_STRING | IN_DOUBLE_QUOTE | IN_LINE_COMMENT | IN_BLOCK_COMMENT

  // The comment depth has a meaning only inside a block comment.
  function Lexical(state: ScanState, depth: nat): LexState {
    match state
    case NORMAL => Normal
    case IN_SINGLE_QUOTE => SingleQuote
    case IN_ESCAPE_STRING => EscapeString
    case IN_DOUBLE_QUOTE => DoubleQuote
    case IN_LINE_COMMENT => LineComment
    case IN_BLOCK_COMMENT => BlockComment(depth)
  }

  // Where one lexical unit ends, the state behind it, and whether it is a dollar-quoted body
  // that the text never closes.
  datatype Unit = Unit(end: nat, state: LexState, unterminated: bool)

  predicate IdentifierStart(c: char) {
    'a' <= c <= 'z' || 'A' <= c <= 'Z' || c == '_'
  }

  predicate IdentifierPart(c: char) {
    IdentifierStart(c) || '0' <= c <= '9'
  }

  /** Identifiers are made of letters, underscores and, but for their first character, digits. */
  lemma IdentifierCharacters(c: char, k: nat)
    ensures k < 26 ==> IdentifierStart('a' + k as char) && IdentifierStart('A' + k as char)
    ensures k < 10 ==> IdentifierPart('0' + k as char) && !IdentifierStart('0' + k as char)
    ensures IdentifierStart('_') && (IdentifierStart(c) ==> IdentifierPart(c))
    ensures IdentifierPart(c) ==>
              c == '_' || 0 <= c as int - 'a' as int < 26 || 0 <= c as int - 'A' as int < 26
              || 0 <= c as int - '0' as int < 10
  {
  }

  predicate Blank(c: char) {
    c == ' ' || c == '\t' || c == '\n' || c == '\r'
  }

  predicate At(x: string, i: nat, c: char) {
    i < |x| && x[i] == c
  }

  // ---- Dollar quotes ----

  function IdentifierEnd(x: string, i: nat): (end: nat)
    requires i <= |x|
    ensures i <= end <= |x| && forall k :: i <= k < end ==> IdentifierPart(x[k])
    decreases |x| - i
  {
    if i < |x| && IdentifierPart(x[i]) then IdentifierEnd(x, i + 1) else i
  }

  // Length of the opening delimiter $tag$ at `i`, or 0 when there is none.
  function TagLength(x: string, i: nat): (length: nat)
    requires At(x, i, '$')
    ensures length == 0 || 2 <= length <= |x| - i
  {
    if At(x, i + 1, '$') then 2
    else if i + 1 < |x| && IdentifierStart(x[i + 1]) then
      var end := IdentifierEnd(x, i + 2);
      if At(x, end, '$') then end - i + 1 else 0
    else 0
  }

  // The text `s` stands in `x` at `i`.
  predicate StandsAt(s: string, x: string, i: nat) {
    i + |s| <= |x| && x[i..i + |s|] == s
  }

  lemma StandsInParts(a: string, b: string, x: string, i: nat)
    requires StandsAt(a + b, x, i)
    ensures StandsAt(a, x, i) && StandsAt(b, x, i + |a|)
  {
    assert a == (a + b)[..|a|] && b == (a + b)[|a|..];
    assert x[i..i + |a|] == x[i..i + |a + b|][..|a|] && x[i + |a|..i + |a + b|] == x[i..i + |a + b|][|a|..];
  }

  lemma StandsJoined(a: string, b: string, x: string, i: nat)
    requires StandsAt(a, x, i) && StandsAt(b, x, i + |a|)
    ensures StandsAt(a + b, x, i)
  {
    assert x[i..i + |a + b|] == x[i..i + |a|] + x[i + |a|..i + |a| + |b|];
  }

  lemma StandsCharacter(s: string, x: string, i: nat, k: nat)
    requires StandsAt(s, x, i) && k < |s|
    ensures At(x, i + k, s[k])
  {
    assert x[i + k] == x[i..i + |s|][k];
  }

  // Just behind the first occurrence of the delimiter at or after `i`, or None.
  datatype Found = Found(end: nat) | NotFound

  function CloseTag(x: string, i: nat, tag: string): (found: Found)
    requires i <= |x|
    ensures found.Found? ==> i + |tag| <= found.end <= |x|
    decreases |x| - i
  {
    if i == |x| then NotFound
    else if i + |tag| <= |x| && x[i..i + |tag|] == tag then Found(i + |tag|)
    else CloseTag(x, i + 1, tag)
  }

  function DollarUnit(x: string, i: nat): (u: Unit)
    requires At(x, i, '$') && TagLength(x, i) > 0
    ensures u.state.Normal?
    ensures i + TagLength(x, i) <= u.end <= |x| && (u.unterminated ==> u.end == |x|)
  {
    var length := TagLength(x, i);
    match CloseTag(x, i + length, x[i..i + length])
    case Found(end) => Unit(end, Normal, false)
    case NotFound => Unit(|x|, Normal, true)
  }

  // ---- One lexical unit ----

  function NormalUnit(x: string, i: nat, canOpen: bool): (u: Unit)
    requires i < |x|
    ensures i < u.end <= |x| && (u.unterminated ==> u.end == |x|)
  {
    if (x[i] == 'E' || x[i] == 'e') && At(x, i + 1, '\'') then Unit(i + 2, EscapeString, false)
    else if x[i] == '$' && canOpen && TagLength(x, i) > 0 then DollarUnit(x, i)
    else if x[i] == '\'' then Unit(i + 1, SingleQuote, false)
    else if x[i] == '"' then Unit(i + 1, DoubleQuote, false)
    else if x[i] == '-' && At(x, i + 1, '-') then Unit(i + 2, LineComment, false)
    else if x[i] == '/' && At(x, i + 1, '*') then Unit(i + 2, BlockComment(1), false)
    else Unit(i + 1, Normal, false)
  }

  function QuotedUnit(x: string, i: nat, state: LexState, quote: char, backslash: bool): (u: Unit)
    requires i < |x|
    ensures i < u.end <= |x|
  {
    if x[i] == '\\' && backslash && i + 1 < |x| then Unit(i + 2, state, false)
    else if x[i] == quote && At(x, i + 1, quote) then Unit(i + 2, state, false)
    else if x[i] == quote then Unit(i + 1, Normal, false)
    else Unit(i + 1, state, false)
  }

  function BlockCommentUnit(x: string, i: nat, depth: nat): (u: Unit)
    requires i < |x|
    ensures i < u.end <= |x|
  {
    if x[i] == '/' && At(x, i + 1, '*') then Unit(i + 2, BlockComment(depth + 1), false)
    else if x[i] == '*' && At(x, i + 1, '/') then
      Unit(i + 2, if depth <= 1 then Normal else BlockComment(depth - 1), false)
    else Unit(i + 1, BlockComment(depth), false)
  }

  // `scs` is standard_conforming_strings: backslashes in ordinary literals are then plain text.
  function LexUnit(x: string, scs: bool, i: nat, state: LexState, canOpen: bool): (u: Unit)
    requires i < |x|
    ensures i < u.end <= |x| && (u.unterminated ==> u.end == |x|)
  {
    match state
    case Normal => NormalUnit(x, i, canOpen)
    case SingleQuote => QuotedUnit(x, i, state, '\'', !scs)
    case EscapeString => QuotedUnit(x, i, state, '\'', true)
    case DoubleQuote => QuotedUnit(x, i, state, '"', false)
    case LineComment => Unit(i + 1, if x[i] == '\n' then Normal else LineComment, false)
    case BlockComment(depth) => BlockCommentUnit(x, i, depth)
  }

  // A '$' behind an identifier character continues the identifier.
  predicate CanOpen(x: string, i: nat)
    requires i <= |x|
  {
    i == 0 || !IdentifierPart(x[i - 1])
  }

  predicate PairAt(x: string, i: nat) {
    At(x, i, '?') && At(x, i + 1, '?')
  }

  predicate MarkerAt(x: string, i: nat) {
    At(x, i, '?') && !At(x, i + 1, '?')
  }

  // With `pairs`, "??" outside literals and comments is one unit: it stands for a plain '?'.
  function NextUnit(x: string, scs: bool, pairs: bool, i: nat, state: LexState): (u: Unit)
    requires i < |x|
    ensures i < u.end <= |x| && (u.unterminated ==> u.end == |x|)
  {
    if pairs && state.Normal? && PairAt(x, i) then Unit(i + 2, Normal, false)
    else LexUnit(x, scs, i, state, CanOpen(x, i))
  }

  // Blanks, semicolons and single markers are units of their own.
  lemma PlainUnit(x: string, scs: bool, pairs: bool, i: nat)
    requires i < |x| && (Blank(x[i]) || x[i] == ';' || (x[i] == '?' && !(pairs && PairAt(x, i))))
    ensures NextUnit(x, scs, pairs, i, Normal) == Unit(i + 1, Normal, false)
  {
  }

  // ---- Whole texts ----

  // The first top-level semicolon at or after `i`, or the end of the text.
  function CutAt(x: string, scs: bool, pairs: bool, i: nat, state: LexState): (cut: nat)
    requires i <= |x|
    ensures i <= cut <= |x|
    ensures cut < |x| ==> x[cut] == ';'
    decreases |x| - i
  {
    if i == |x| || (state.Normal? && x[i] == ';') then i
    else CutAt(x, scs, pairs, NextUnit(x, scs, pairs, i, state).end, NextUnit(x, scs, pairs, i, state).state)
  }

  // The number of parameter markers from `i` on.
  function Markers(x: string, scs: bool, i: nat, state: LexState): nat
    requires i <= |x|
    decreases |x| - i
  {
    if i == |x| then 0
    else
      (if state.Normal? && MarkerAt(x, i) then 1 else 0) +
      Markers(x, scs, NextUnit(x, scs, true, i, state).end, NextUnit(x, scs, true, i, state).state)
  }

  // No literal, comment or dollar-quoted body is left open at the end of the text.
  predicate Closed(x: string, scs: bool, i: nat, state: LexState)
    requires i <= |x|
    decreases |x| - i
  {
    if i == |x| then state.Normal?
    else
      var u := NextUnit(x, scs, false, i, state);
      !u.unterminated && Closed(x, scs, u.end, u.state)
  }

  // ---- The same unit in a suffix of the text ----

  lemma IdentifierEndShift(x: string, s: nat, i: nat)
    requires s + i <= |x|
    ensures IdentifierEnd(x, s + i) == s + IdentifierEnd(x[s..], i)
    decreases |x| - i
  {
    if s + i < |x| && IdentifierPart(x[s + i]) {
      IdentifierEndShift(x, s, i + 1);
    }
  }

  lemma CloseTagShift(x: string, s: nat, i: nat, tag: string)
    requires s + i <= |x|
    ensures CloseTag(x, s + i, tag) ==
            match CloseTag(x[s..], i, tag)
            case Found(end) => Found(s + end)
            case NotFound => NotFound
    decreases |x| - i
  {
    if s + i < |x| {
      if s + i + |tag| <= |x| {
        assert x[s..][i..i + |tag|] == x[s + i..s + i + |tag|];
      }
      CloseTagShift(x, s, i + 1, tag);
    }
  }

  lemma TagLengthShift(x: string, s: nat, i: nat)
    requires At(x, s + i, '$')
    ensures TagLength(x, s + i) == TagLength(x[s..], i)
  {
    if s + i + 2 <= |x| {
      IdentifierEndShift(x, s, i + 2);
    }
  }

  lemma DollarUnitShift(x: string, s: nat, i: nat)
    requires At(x, s + i, '$') && TagLength(x, s + i) > 0
    ensures TagLength(x[s..], i) == TagLength(x, s + i)
    ensures DollarUnit(x, s + i) == DollarUnit(x[s..], i).(end := s + DollarUnit(x[s..], i).end)
  {
    hide CloseTag;
    TagLengthShift(x, s, i);
    var length := TagLength(x, s + i);
    assert x[s..][i..i + length] == x[s + i..s + i + length];
    CloseTagShift(x, s, i + length, x[s + i..s + i + length]);
  }

  lemma NormalUnitShift(x: string, s: nat, i: nat, canOpen: bool)
    requires s + i < |x|
    ensures var u := NormalUnit(x[s..], i, canOpen); NormalUnit(x, s + i, canOpen) == u.(end := s + u.end)
  {
    hide TagLength, DollarUnit;
    if x[s + i] == '$' {
      TagLengthShift(x, s, i);
      if TagLength(x, s + i) > 0 {
        DollarUnitShift(x, s, i);
      }
    }
  }

  lemma OtherUnitShift(x: string, scs: bool, s: nat, i: nat, state: LexState, canOpen: bool)
    requires s + i < |x| && !state.Normal?
    ensures var u := LexUnit(x[s..], scs, i, state, canOpen);
            LexUnit(x, scs, s + i, state, canOpen) == u.(end := s + u.end)
  {
    hide NormalUnit;
  }

  lemma NextUnitShift(x: string, scs: bool, pairs: bool, s: nat, i: nat, state: LexState)
    requires s + i < |x| && CanOpen(x, s)
    ensures NextUnit(x, scs, pairs, s + i, state) ==
            NextUnit(x[s..], scs, pairs, i, state).(end := s + NextUnit(x[s..], scs, pairs, i, state).end)
  {
    hide NormalUnit, QuotedUnit, BlockCommentUnit;
    if !(pairs && state.Normal? && PairAt(x, s + i)) {
      if state.Normal? {
        NormalUnitShift(x, s, i, CanOpen(x, s + i));
      } else {
        OtherUnitShift(x, scs, s, i, state, CanOpen(x, s + i));
      }
    }
  }

  // ---- The same unit in a prefix of the text ----

  lemma IdentifierEndPrefix(y: string, x: string, i: nat)
    requires y <= x && i <= |y|
    ensures IdentifierEnd(y, i) == if IdentifierEnd(x, i) <= |y| then IdentifierEnd(x, i) else |y|
    decreases |y| - i
  {
    if i < |y| && IdentifierPart(y[i]) {
      IdentifierEndPrefix(y, x, i + 1);
    }
  }

  lemma CloseTagPrefix(y: string, x: string, i: nat, tag: string)
    requires y <= x && i <= |y| && tag != []
    ensures CloseTag(y, i, tag) ==
            match CloseTag(x, i, tag)
            case Found(end) => if end <= |y| then Found(end) else NotFound
            case NotFound => NotFound
    decreases |y| - i
  {
    if i < |y| {
      if i + |tag| <= |y| {
        assert y[i..i + |tag|] == x[i..i + |tag|];
      }
      CloseTagPrefix(y, x, i + 1, tag);
    }
  }

  // Whatever follows a prefix cannot continue a unit of it when it is a blank or a semicolon.
  predicate Separated(y: string, x: string) {
    y <= x && |y| < |x| && (Blank(x[|y|]) || x[|y|] == ';')
  }

  lemma TagLengthPrefix(y: string, x: string, i: nat)
    requires y <= x && At(y, i, '$')
    ensures TagLength(y, i) > 0 ==> TagLength(x, i) == TagLength(y, i)
    ensures TagLength(y, i) == 0 && TagLength(x, i) > 0 ==> i + TagLength(x, i) > |y| && !Separated(y, x)
  {
    if i + 2 <= |y| {
      IdentifierEndPrefix(y, x, i + 2);
    }
  }

  lemma DollarUnitPrefix(y: string, x: string, i: nat)
    requires y <= x && At(y, i, '$') && TagLength(y, i) > 0
    ensures TagLength(x, i) == TagLength(y, i)
    ensures DollarUnit(x, i).end <= |y| ==> DollarUnit(y, i) == DollarUnit(x, i)
    ensures DollarUnit(x, i).end > |y| ==> DollarUnit(y, i) == Unit(|y|, Normal, true)
  {
    hide CloseTag;
    TagLengthPrefix(y, x, i);
    var length := TagLength(y, i);
    assert y[i..i + length] == x[i..i + length];
    CloseTagPrefix(y, x, i + length, y[i..i + length]);
  }

  lemma NormalUnitPrefix(y: string, x: string, i: nat, canOpen: bool)
    requires y <= x && i < |y| && NormalUnit(x, i, canOpen).end <= |y|
    ensures NormalUnit(y, i, canOpen) == NormalUnit(x, i, canOpen)
  {
    hide TagLength, DollarUnit;
    if x[i] == '$' {
      TagLengthPrefix(y, x, i);
      if TagLength(y, i) > 0 {
        DollarUnitPrefix(y, x, i);
      }
    }
  }

  lemma OtherUnitPrefix(y: string, x: string, scs: bool, i: nat, state: LexState, canOpen: bool)
    requires y <= x && i < |y| && !state.Normal? && LexUnit(x, scs, i, state, canOpen).end <= |y|
    ensures LexUnit(y, scs, i, state, canOpen) == LexUnit(x, scs, i, state, canOpen)
  {
    hide NormalUnit;
  }

  // A unit of the whole text that ends within the prefix is a unit of the prefix.
  lemma NextUnitPrefix(y: string, x: string, scs: bool, pairs: bool, i: nat, state: LexState)
    requires y <= x && i < |y| && NextUnit(x, scs, pairs, i, state).end <= |y|
    ensures NextUnit(y, scs, pairs, i, state) == NextUnit(x, scs, pairs, i, state)
  {
    hide NormalUnit, QuotedUnit, BlockCommentUnit;
    if !(pairs && state.Normal? && PairAt(x, i)) {
      if state.Normal? {
        NormalUnitPrefix(y, x, i, CanOpen(x, i));
      } else {
        OtherUnitPrefix(y, x, scs, i, state, CanOpen(x, i));
      }
    }
  }

  // One that reaches beyond a separated prefix leaves something open at the end of the prefix.
  lemma NextUnitOvershoot(y: string, x: string, scs: bool, pairs: bool, i: nat, state: LexState)
    requires Separated(y, x) && i < |y| && NextUnit(x, scs, pairs, i, state).end > |y|
    ensures NextUnit(y, scs, pairs, i, state).end == |y|
    ensures NextUnit(y, scs, pairs, i, state).unterminated || !NextUnit(y, scs, pairs, i, state).state.Normal?
  {
    hide TagLength;
    if x[i] == '$' {
      TagLengthPrefix(y, x, i);
      if TagLength(y, i) > 0 {
        DollarUnitPrefix(y, x, i);
      }
    }
  }
}
