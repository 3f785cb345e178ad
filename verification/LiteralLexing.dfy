/** How the driver's own lexers read the literals that it writes into statements. */
module LiteralLexing {
  import opened QuotedLiterals
  import opened SqlLexer
  import opened StatementSplitter

  // The text of a written literal from behind its opening quote on, closing quote included.
  predicate Body(x: string, i: nat, value: string)
    decreases |value|
  {
    if value == "" then At(x, i, QUOTE)
    else if value[0] == QUOTE then At(x, i, QUOTE) && At(x, i + 1, QUOTE) && Body(x, i + 2, value[1..])
    else At(x, i, value[0]) && Body(x, i + 1, value[1..])
  }

  function BodyEnd(i: nat, value: string): nat {
    i + |Doubled(value)| + 1
  }

  // How one character of a value is written.
  function Front(c: char): string {
    if c == QUOTE then [QUOTE, QUOTE] else [c]
  }

  lemma BodyFront(x: string, i: nat, value: string)
    requires value != ""
    ensures Body(x, i, value) <==> StandsAt(Front(value[0]), x, i) && Body(x, i + |Front(value[0])|, value[1..])
  {
    hide StandsAt;
    CharacterStands(x, i, value[0]);
    CharacterStands(x, i + 1, QUOTE);
    StandsApart([QUOTE], [QUOTE], x, i);
    assert [QUOTE] + [QUOTE] == [QUOTE, QUOTE];
  }

  lemma DoubledFront(x: string, i: nat, value: string)
    requires value != ""
    ensures StandsAt(Doubled(value) + "'", x, i) <==>
            StandsAt(Front(value[0]), x, i) && StandsAt(Doubled(value[1..]) + "'", x, i + |Front(value[0])|)
  {
    hide StandsAt;
    var front, rest := Front(value[0]), Doubled(value[1..]) + "'";
    StandsApart(front, rest, x, i);
    assert front + rest == Doubled(value) + "'";
  }

  lemma {:induction false} BodyIsDoubling(x: string, i: nat, value: string)
    ensures Body(x, i, value) <==> BodyEnd(i, value) <= |x| && x[i..BodyEnd(i, value)] == Doubled(value) + "'"
    decreases |value|
  {
    hide StandsAt, BodyEnd, Front;
    if value == "" {
      CharacterStands(x, i, QUOTE);
      assert Doubled("") + "'" == [QUOTE];
    } else {
      hide Body, Doubled;
      var next := i + |Front(value[0])|;
      BodyFront(x, i, value);
      DoubledFront(x, i, value);
      BodyIsDoubling(x, next, value[1..]);
      StandsMeans(x, next, value[1..]);
    }
    StandsMeans(x, i, value);
  }

  lemma CharacterStands(x: string, i: nat, c: char)
    ensures StandsAt([c], x, i) <==> At(x, i, c)
  {
    if i < |x| {
      assert x[i..i + 1] == [x[i]];
    }
  }

  lemma StandsApart(a: string, b: string, x: string, i: nat)
    ensures StandsAt(a + b, x, i) <==> StandsAt(a, x, i) && StandsAt(b, x, i + |a|)
  {
    hide StandsAt;
    if StandsAt(a + b, x, i) {
      StandsInParts(a, b, x, i);
    }
    if StandsAt(a, x, i) && StandsAt(b, x, i + |a|) {
      StandsJoined(a, b, x, i);
    }
  }

  lemma StandsMeans(x: string, i: nat, value: string)
    ensures StandsAt(Doubled(value) + "'", x, i) <==>
            BodyEnd(i, value) <= |x| && x[i..BodyEnd(i, value)] == Doubled(value) + "'"
  {
    hide Doubled;
  }

  // A character that is no quote, and the one behind it.
  lemma BodyPair(x: string, i: nat, value: string)
    requires Body(x, i, value) && |value| > 1 && value[0] != QUOTE
    ensures At(x, i, value[0]) && At(x, i + 1, value[1])
    ensures var width := if value[1] == QUOTE then 3 else 2;
            && Body(x, i + width, value[2..]) && BodyEnd(i + width, value[2..]) == BodyEnd(i, value)
            && (value[1] == QUOTE ==> At(x, i + 2, QUOTE))
  {
    assert Body(x, i + 1, value[1..]) && |Doubled(value)| == 1 + |Doubled(value[1..])|;
    assert value[1..][1..] == value[2..] && value[1..][0] == value[1];
  }

  // A literal that no further quote continues.
  predicate Literal(x: string, i: nat, value: string) {
    Body(x, i, value) && !At(x, BodyEnd(i, value), QUOTE)
  }

  // ---- Values that leave the literal intact ----

  // Pairing backslashes with the characters behind them from left to right, one stands before a
  // quote or at the end of the value.
  predicate EscapesQuote(value: string)
    decreases |value|
  {
    value != "" &&
    if value[0] != '\\' then EscapesQuote(value[1..])
    else |value| == 1 || value[1] == QUOTE || EscapesQuote(value[2..])
  }

  // Nothing in the value acts on a quote: backslashes are plain text, or escape other characters.
  predicate Intact(value: string, scs: bool) {
    scs || !EscapesQuote(value)
  }

  // Characters of the value in one lexical unit of the literal.
  function UnitChars(value: string, scs: bool): (k: nat)
    requires value != "" && Intact(value, scs)
    ensures 1 <= k <= |value| && Intact(value[k..], scs)
  {
    if !scs && value[0] == '\\' then 2 else 1
  }

  function UnitWidth(value: string, scs: bool): nat
    requires value != "" && Intact(value, scs)
  {
    if value[0] == QUOTE then 2 else UnitChars(value, scs)
  }

  lemma LiteralUnit(x: string, scs: bool, pairs: bool, i: nat, value: string)
    requires Literal(x, i, value) && Intact(value, scs)
    ensures i < |x|
    ensures value == "" ==> NextUnit(x, scs, pairs, i, SingleQuote) == Unit(i + 1, Normal, false)
    ensures value != "" ==>
              var next := i + UnitWidth(value, scs);
              && NextUnit(x, scs, pairs, i, SingleQuote) == Unit(next, SingleQuote, false)
              && Literal(x, next, value[UnitChars(value, scs)..])
              && BodyEnd(next, value[UnitChars(value, scs)..]) == BodyEnd(i, value)
  {
    if |value| > 1 && value[0] == '\\' {
      BodyPair(x, i, value);
    }
    hide NormalUnit, BlockCommentUnit;
  }

  lemma {:induction false} LiteralBody(x: string, scs: bool, pairs: bool, i: nat, value: string)
    requires Literal(x, i, value) && Intact(value, scs)
    ensures var end := BodyEnd(i, value);
            && i < end <= |x|
            && CutAt(x, scs, pairs, i, SingleQuote) == CutAt(x, scs, pairs, end, Normal)
            && Markers(x, scs, i, SingleQuote) == Markers(x, scs, end, Normal)
            && Closed(x, scs, i, SingleQuote) == Closed(x, scs, end, Normal)
            && LiteralEnd(x, scs, i) == Found(end)
    decreases |value|
  {
    hide NextUnit, Literal, Intact, UnitWidth, UnitChars;
    LiteralUnit(x, scs, pairs, i, value);
    LiteralUnit(x, scs, true, i, value);
    LiteralUnit(x, scs, false, i, value);
    assert value == "" ==> BodyEnd(i, value) == i + 1;
    hide BodyEnd;
    if value != "" {
      LiteralBody(x, scs, pairs, i + UnitWidth(value, scs), value[UnitChars(value, scs)..]);
    }
  }

  /**
   Wherever a statement expects a literal, the driver's own lexers pass over an intact one whole:
   nothing in the value ends the statement, counts as a marker, or is left open.
   */
  lemma WrittenLiteralIsOpaque(x: string, scs: bool, pairs: bool, i: nat, value: string)
    requires At(x, i, QUOTE) && Literal(x, i + 1, value) && Intact(value, scs)
    ensures var end := BodyEnd(i + 1, value);
            && end <= |x|
            && CutAt(x, scs, pairs, i, Normal) == CutAt(x, scs, pairs, end, Normal)
            && Markers(x, scs, i, Normal) == Markers(x, scs, end, Normal)
            && Closed(x, scs, i, Normal) == Closed(x, scs, end, Normal)
  {
    QuoteOpens(x, scs, pairs, i);
    QuoteOpens(x, scs, true, i);
    QuoteOpens(x, scs, false, i);
    hide Literal, NextUnit, Intact, BodyEnd;
    LiteralBody(x, scs, pairs, i + 1, value);
  }

  lemma QuoteOpens(x: string, scs: bool, pairs: bool, i: nat)
    requires At(x, i, QUOTE)
    ensures NextUnit(x, scs, pairs, i, Normal) == Unit(i + 1, SingleQuote, false)
  {
  }

  // ---- Where a literal ends ----

  // Behind the closing quote of the literal around `i`.
  function LiteralEnd(x: string, scs: bool, i: nat): (found: Found)
    requires i <= |x|
    ensures found.Found? ==> i < found.end <= |x|
    decreases |x| - i
  {
    if i == |x| then NotFound
    else
      var u := NextUnit(x, scs, false, i, SingleQuote);
      if u.state.Normal? then Found(u.end) else LiteralEnd(x, scs, u.end)
  }

  // Behind the first quote of a doubled pair the literal ends before its closing quote, or runs
  // across it.
  lemma {:induction false} ShiftedEndsElsewhere(x: string, i: nat, value: string)
    requires At(x, i, QUOTE) && Body(x, i + 1, value)
    ensures LiteralEnd(x, false, i) != Found(BodyEnd(i + 1, value))
    decreases |value|
  {
    hide NormalUnit, BlockCommentUnit;
    if value != "" && value[0] == QUOTE {
      ShiftedEndsElsewhere(x, i + 2, value[1..]);
    }
  }

  // A character of the value that is no backslash is passed over.
  lemma CharacterPassed(x: string, i: nat, value: string)
    requires Literal(x, i, value) && value != "" && value[0] != '\\'
    ensures var next := i + if value[0] == QUOTE then 2 else 1;
            && i < next <= |x| && Literal(x, next, value[1..]) && BodyEnd(next, value[1..]) == BodyEnd(i, value)
            && LiteralEnd(x, false, i) == LiteralEnd(x, false, next)
  {
    hide NormalUnit, BlockCommentUnit;
  }

  lemma {:induction false} EscapedQuoteEndsElsewhere(x: string, i: nat, value: string)
    requires Literal(x, i, value) && EscapesQuote(value)
    ensures i < |x| && LiteralEnd(x, false, i) != Found(BodyEnd(i, value))
    decreases |value|
  {
    hide NormalUnit, BlockCommentUnit;
    if value[0] != '\\' {
      CharacterPassed(x, i, value);
      hide LiteralEnd, Literal;
      EscapedQuoteEndsElsewhere(x, i + if value[0] == QUOTE then 2 else 1, value[1..]);
    } else if |value| > 1 {
      BodyPair(x, i, value);
      if value[1] == QUOTE {
        ShiftedEndsElsewhere(x, i + 2, value[2..]);
      } else {
        EscapedQuoteEndsElsewhere(x, i + 2, value[2..]);
      }
    }
  }

  /**
   The lexer finds the end of a written literal where it was written if and only if the value is
   intact: backslashes are plain text, or none of them acts on a quote.
   */
  lemma LiteralEndsWhereWritten(x: string, scs: bool, i: nat, value: string)
    requires Literal(x, i, value)
    ensures i < |x| && (LiteralEnd(x, scs, i) == Found(BodyEnd(i, value)) <==> Intact(value, scs))
  {
    hide Literal, LiteralEnd, EscapesQuote, BodyEnd;
    if Intact(value, scs) {
      LiteralBody(x, scs, false, i, value);
    } else {
      EscapedQuoteEndsElsewhere(x, i, value);
    }
  }

  // ---- Whether a literal is closed ----

  // Behind a character that is no quote the rest of a body is a body again.
  lemma {:induction false} BodyBehind(x: string, i: nat, value: string, e: nat) returns (rest: string)
    requires Body(x, i, value) && i < e <= BodyEnd(i, value) && e <= |x| && x[e - 1] != QUOTE
    ensures Body(x, e, rest) && BodyEnd(e, rest) == BodyEnd(i, value)
    decreases |value|
  {
    if value[0] == QUOTE {
      rest := BodyBehind(x, i + 2, value[1..], e);
    } else if e == i + 1 {
      rest := value[1..];
    } else {
      rest := BodyBehind(x, i + 1, value[1..], e);
    }
  }

  lemma DollarUnitEnds(x: string, i: nat)
    requires At(x, i, '$') && TagLength(x, i) > 0 && !DollarUnit(x, i).unterminated
    ensures x[DollarUnit(x, i).end - 1] == '$'
  {
    var length := TagLength(x, i);
    TagEnds(x, i + length, x[i..i + length]);
  }

  lemma {:induction false} TagEnds(x: string, i: nat, tag: string)
    requires i <= |x| && tag != ""
    ensures CloseTag(x, i, tag).Found? ==>
              i < CloseTag(x, i, tag).end && x[CloseTag(x, i, tag).end - 1] == tag[|tag| - 1]
    decreases |x| - i
  {
    if i < |x| {
      if i + |tag| <= |x| && x[i..i + |tag|] == tag {
        assert x[i + |tag| - 1] == x[i..i + |tag|][|tag| - 1];
      } else {
        TagEnds(x, i + 1, tag);
      }
    }
  }

  // The text from `i` to the end is the rest of a written literal, read in step with its doubled
  // pairs, or from behind the first quote of one (`shifted`).
  predicate Misread(x: string, i: nat, value: string, shifted: bool, state: LexState) {
    var start := if shifted then i + 1 else i;
    && Body(x, start, value) && BodyEnd(start, value) == |x| && (shifted ==> At(x, i, QUOTE))
    && (state.Normal? ==> !shifted) && (state.SingleQuote? || state.EscapeString? ==> shifted)
  }

  lemma UnitKinds(x: string, scs: bool, i: nat, state: LexState)
    requires i < |x|
    ensures var u := NextUnit(x, scs, false, i, state);
            && (x[u.end - 1] != QUOTE && !u.unterminated && !state.SingleQuote? && !state.EscapeString? ==>
                  !u.state.SingleQuote? && !u.state.EscapeString?)
            && (x[u.end - 1] == QUOTE && !u.unterminated && state.Normal? ==>
                  || (x[i] == QUOTE && u == Unit(i + 1, SingleQuote, false))
                  || (x[i] != QUOTE && u == Unit(i + 2, EscapeString, false)))
            && (state.SingleQuote? || state.EscapeString? ==> x[i] == QUOTE ==>
                  u == if At(x, i + 1, QUOTE) then Unit(i + 2, state, false) else Unit(i + 1, Normal, false))
            && (x[u.end - 1] == QUOTE && !state.Normal? && !state.SingleQuote? && !state.EscapeString? ==>
                  x[i] == QUOTE && u == Unit(i + 1, state, false))
  {
    hide TagLength, DollarUnit;
    if x[i] == '$' && TagLength(x, i) > 0 && !DollarUnit(x, i).unterminated {
      DollarUnitEnds(x, i);
    }
  }

  // Read like that, the text is never closed: every pair of quotes opens and closes, and the last
  // quote opens.
  lemma {:induction false} MisreadStaysOpen(x: string, scs: bool, i: nat, value: string, shifted: bool, state: LexState)
    requires Misread(x, i, value, shifted, state)
    ensures i < |x| && !Closed(x, scs, i, state)
    decreases |x| - i
  {
    hide NextUnit;
    MisreadInside(x, i, value, shifted, state);
    UnitKinds(x, scs, i, state);
    var u := NextUnit(x, scs, false, i, state);
    if !u.unterminated && u.end < |x| {
      var rest, ahead := MisreadUnit(x, scs, i, value, shifted, state);
      MisreadStaysOpen(x, scs, u.end, rest, ahead, u.state);
    } else if u.end == |x| && !u.unterminated {
      assert x[|x| - 1] == QUOTE;
    }
  }

  lemma {:induction false} BodyCloses(x: string, i: nat, value: string)
    requires Body(x, i, value)
    ensures i < BodyEnd(i, value) <= |x| && x[BodyEnd(i, value) - 1] == QUOTE
    decreases |value|
  {
    if value != "" {
      BodyCloses(x, i + if value[0] == QUOTE then 2 else 1, value[1..]);
    }
  }

  lemma MisreadInside(x: string, i: nat, value: string, shifted: bool, state: LexState)
    requires Misread(x, i, value, shifted, state)
    ensures i < |x| && x[|x| - 1] == QUOTE
  {
    BodyCloses(x, if shifted then i + 1 else i, value);
  }

  lemma MisreadUnit(x: string, scs: bool, i: nat, value: string, shifted: bool, state: LexState)
      returns (rest: string, ahead: bool)
    requires i < |x| && Misread(x, i, value, shifted, state)
    requires var u := NextUnit(x, scs, false, i, state); !u.unterminated && u.end < |x|
    ensures var u := NextUnit(x, scs, false, i, state); Misread(x, u.end, rest, ahead, u.state)
  {
    UnitKinds(x, scs, i, state);
    var u := NextUnit(x, scs, false, i, state);
    hide NextUnit;
    if x[u.end - 1] != QUOTE {
      ahead := false;
      rest := BodyBehind(x, if shifted then i + 1 else i, value, u.end);
    } else if state.SingleQuote? || state.EscapeString? {
      rest, ahead := value, false;
      if u.end == i + 2 {
        rest, ahead := value[1..], true;
      }
    } else if shifted {
      rest, ahead := value, false;
    } else if x[i] == QUOTE {
      rest, ahead := value[1..], true;
    } else {
      assert |value| == 1 ==> Doubled(value) == value + Doubled("") && BodyEnd(i, value) == i + 2;
      BodyPair(x, i, value);
      rest, ahead := value[2..], true;
    }
  }

  lemma {:induction false} EscapedQuoteStaysOpen(x: string, i: nat, value: string)
    requires Body(x, i, value) && BodyEnd(i, value) == |x| && EscapesQuote(value)
    ensures i < |x| && !Closed(x, false, i, SingleQuote)
    decreases |value|
  {
    hide NormalUnit, BlockCommentUnit;
    if value[0] != '\\' {
      EscapedQuoteStaysOpen(x, i + if value[0] == QUOTE then 2 else 1, value[1..]);
    } else if |value| > 1 {
      BodyPair(x, i, value);
      if value[1] == QUOTE {
        MisreadStaysOpen(x, false, i + 2, value[2..], true, SingleQuote);
      } else {
        EscapedQuoteStaysOpen(x, i + 2, value[2..]);
      }
    }
  }

  function Written(value: string): string {
    "'" + Doubled(value) + "'"
  }

  lemma WrittenBody(value: string)
    ensures Literal(Written(value), 1, value) && BodyEnd(1, value) == |Written(value)|
  {
    var x := Written(value);
    assert x[1..BodyEnd(1, value)] == Doubled(value) + "'";
    BodyIsDoubling(x, 1, value);
  }

  /** A written literal is closed exactly when its value is intact. */
  lemma ClosedExactlyWhenIntact(value: string, scs: bool)
    ensures LexicallyClosed(Written(value), scs) <==> Intact(value, scs)
  {
    var x := Written(value);
    WrittenBody(value);
    QuoteOpens(x, scs, false, 0);
    hide NextUnit, Written, EscapesQuote;
    if Intact(value, scs) {
      WrittenLiteralIsOpaque(x, scs, false, 0, value);
    } else {
      EscapedQuoteStaysOpen(x, 1, value);
    }
  }

  lemma {:induction false} TrimRightKeeps(s: string, k: nat)
    requires k < |s| && !Blank(s[k])
    ensures |TrimRight(s)| > k
    decreases |s|
  {
    if Blank(s[|s| - 1]) {
      TrimRightKeeps(s[..|s| - 1], k);
    }
  }

  // The first fragment of a text that begins with a quote is its first piece, trimmed at the end.
  lemma FirstFragment(x: string, scs: bool)
    requires x != "" && x[0] == QUOTE
    ensures var cut := CutAt(x, scs, false, 0, Normal);
            Split(x, scs) != [] && Split(x, scs)[0] == TrimRight(x[..cut]) && cut > 0
  {
    QuoteOpens(x, scs, false, 0);
    hide TrimRight;
    var cut := CutAt(x, scs, false, 0, Normal);
    PiecesAt(x, scs, 0, cut);
    var pieces := Pieces(x, scs, 0);
    assert pieces[0] == x[0..cut] == x[..cut];
    TrimRightKeeps(x[..cut], 0);
    assert Trim(pieces[0]) == TrimRight(x[..cut]);
  }

  /**
   A statement that a semicolon ends right behind a written literal is that statement, and the
   text behind it is split as if it stood alone, if and only if the value is intact.
   */
  lemma LiteralEndsStatement(value: string, rest: string, scs: bool)
    ensures Split(Written(value) + ";" + rest, scs) == [Written(value)] + Split(rest, scs) <==> Intact(value, scs)
  {
    var literal := Written(value);
    var x := literal + ";" + rest;
    ClosedExactlyWhenIntact(value, scs);
    if Intact(value, scs) {
      WrittenLiteralIsOneFragment(value, scs);
      SplitIsCompositional(literal, rest, scs);
    } else if Split(x, scs) == [literal] + Split(rest, scs) {
      FirstFragment(x, scs);
      var cut := CutAt(x, scs, false, 0, Normal);
      assert TrimRight(x[..cut]) == literal;
      if cut > |literal| {
        TrimRightKeeps(x[..cut], |literal|);
      } else {
        assert cut == |literal| && x[..cut] == literal;
        BeforeCut(x, scs, 0, Normal);
      }
    }
  }

  /** A written literal alone is one statement whenever its value is intact. */
  lemma WrittenLiteralIsOneFragment(value: string, scs: bool)
    requires Intact(value, scs)
    ensures Split(Written(value), scs) == [Written(value)]
  {
    var x := Written(value);
    WrittenBody(value);
    WrittenLiteralIsOpaque(x, scs, false, 0, value);
    assert x[0] == QUOTE && x[|x| - 1] == QUOTE;
    hide Doubled, Written;
    assert Pieces(x, scs, 0) == [x];
    assert Trim(x) == x;
    assert Fragments([x]) == [x] + Fragments([]);
  }

  /** With backslashes special, a value that is one backslash swallows the end of its statement. */
  lemma BackslashSwallowsSemicolon()
    ensures !LexicallyClosed(Written("\\"), false)
    ensures Split(Written("\\") + ";", false) == [Written("\\") + ";"]
    ensures Intact("a\\b", false)
  {
    ClosedExactlyWhenIntact("\\", false);
    var x := Written("\\") + ";";
    assert Doubled("\\") == "\\" && x == "'\\';";
    assert CutAt(x, false, false, 3, SingleQuote) == CutAt(x, false, false, 4, SingleQuote) == 4;
    assert CutAt(x, false, false, 1, SingleQuote) == 4;
    assert Pieces(x, false, 0) == [x];
    assert Trim(x) == x;
    assert Fragments([x]) == [x] + Fragments([]);
    assert "a\\b"[1..] == "\\b" && "\\b"[2..] == "";
  }
}
