/**
 Texts written from the tokens of PostgreSQL (sections 4.1.1 to 4.1.5 of its manual), and how the
 driver's lexers read them: what each token is, where it ends, and what is left open.
 */
module Tokens {
  import opened EscapeModel
  import opened LexerAgreement
  import opened LiteralLexing
  import opened QuotedLiterals
  import opened ScannerModel
  import opened SqlLexer
  import opened StatementSplitter

  // ---- Tokens and their text ----

  datatype Token =
    | Space(c: char)
    | Semicolon
    | Mark
    | Pair                                       // "??"
    | Symbol(c: char)
    | Dollar                                     // one that opens nothing, as in "$1"
    | Word(text: string)
    | Quoted(value: string)
    | Escaped(prefix: char, value: string)       // E'...'
    | Name(name: string)                         // "..."
    | DollarQuoted(tag: string, body: string)
    | Line(body: string)                         // a comment up to the end of its line
    | Block(inner: seq<Comment>)

  // What stands in a block comment: text, and comments nested in it.
  datatype Comment = Words(text: string) | Nested(inner: seq<Comment>)

  function NameText(name: string): string {
    if name == "" then "" else (if name[0] == '"' then "\"\"" else [name[0]]) + NameText(name[1..])
  }

  function CommentText(c: Comment): string
    decreases c
  {
    match c
    case Words(text) => text
    case Nested(inner) => "/*" + InnerText(inner) + "*/"
  }

  function InnerText(inner: seq<Comment>): string
    decreases inner
  {
    if inner == [] then "" else CommentText(inner[0]) + InnerText(inner[1..])
  }

  function TokenText(t: Token): string {
    match t
    case Space(c) => [c]
    case Semicolon => ";"
    case Mark => "?"
    case Pair => "??"
    case Symbol(c) => [c]
    case Dollar => "$"
    case Word(text) => text
    case Quoted(value) => Written(value)
    case Escaped(prefix, value) => [prefix] + Written(value)
    case Name(name) => "\"" + NameText(name) + "\""
    case DollarQuoted(tag, body) => Delimiter(tag) + (body + Delimiter(tag))
    case Line(body) => "--" + (body + "\n")
    case Block(inner) => "/*" + (InnerText(inner) + "*/")
  }

  function Delimiter(tag: string): (delimiter: string)
    ensures |delimiter| == |tag| + 2
  {
    "$" + tag + "$"
  }

  function Print(tokens: seq<Token>): string {
    if tokens == [] then "" else TokenText(tokens[0]) + Print(tokens[1..])
  }

  // ---- Which tokens can stand beside each other ----

  predicate Bracket(a: char, b: char) {
    (a == '/' && b == '*') || (a == '*' && b == '/')
  }

  // No comment is opened or closed within the texts, or by the end of one and what stands behind.
  predicate CommentFits(c: Comment, behind: string)
    decreases c
  {
    match c
    case Words(text) =>
      && text != "" && (forall k :: 0 <= k < |text| - 1 ==> !Bracket(text[k], text[k + 1]))
      && (behind != "" ==> !Bracket(text[|text| - 1], behind[0]))
    case Nested(inner) => InnerFits(inner, "*/")
  }

  predicate InnerFits(inner: seq<Comment>, behind: string)
    decreases inner
  {
    inner == [] || (CommentFits(inner[0], InnerText(inner[1..]) + behind) && InnerFits(inner[1..], behind))
  }

  predicate TagFits(tag: string) {
    tag == "" || (IdentifierStart(tag[0]) && forall c <- tag :: IdentifierPart(c))
  }

  predicate WordPart(text: string, k: nat)
    requires k < |text|
  {
    IdentifierPart(text[k]) || (text[k] == '$' && k > 0 && IdentifierPart(text[k - 1]))
  }

  predicate TokenFits(t: Token, scs: bool) {
    match t
    case Space(c) => Blank(c)
    case Symbol(c) => !Blank(c) && !IdentifierPart(c) && c !in {';', '?', QUOTE, '"', '$'}
    case Word(text) => text != "" && forall k :: 0 <= k < |text| ==> WordPart(text, k)
    case Quoted(value) => Intact(value, scs)
    case Escaped(prefix, value) => prefix in {'E', 'e'} && Intact(value, false)
    case DollarQuoted(tag, body) =>
      TagFits(tag) && forall k :: 0 <= k < |body| ==> !StandsAt(Delimiter(tag), body + Delimiter(tag), k)
    case Line(body) => '\n' !in body
    case Block(inner) => InnerFits(inner, "*/")
    case _ => true
  }

  // The character does not go on with the token.
  predicate Apart(t: Token, next: char) {
    match t
    case Mark => next != '?'
    case Symbol(c) => !(c == '-' && next == '-') && !(c == '/' && next == '*')
    case Dollar => next != '$' && !IdentifierStart(next)
    case Word(text) =>
      text != "" ==>
        var last := text[|text| - 1];
        !(last in {'E', 'e'} && next == QUOTE) && !(IdentifierPart(last) && next == '$')
    case Quoted(_) => next != QUOTE
    case Escaped(_, _) => next != QUOTE
    case Name(_) => next != '"'
    case _ => true
  }

  // The tokens can stand in this order with `tail` behind them.
  predicate Fit(tokens: seq<Token>, tail: string, scs: bool) {
    tokens == [] ||
    (TokenFits(tokens[0], scs) && Fit(tokens[1..], tail, scs)
     && var behind := Print(tokens[1..]) + tail; (behind != "" ==> Apart(tokens[0], behind[0])))
  }

  // ---- Reading on ----

  // From `i` in one state the lexers come to `j` in the other, meeting no separator, no marker and no
  // dollar quote without an end on the way.
  ghost predicate Leads(x: string, scs: bool, i: nat, state: LexState, j: nat, reached: LexState) {
    && i <= j <= |x|
    && CutAt(x, scs, false, i, state) == CutAt(x, scs, false, j, reached)
    && Markers(x, scs, i, state) == Markers(x, scs, j, reached)
    && (Closed(x, scs, i, state) <==> Closed(x, scs, j, reached))
  }

  lemma LeadsBy(x: string, scs: bool, i: nat, state: LexState, u: Unit)
    requires i < |x| && !u.unterminated && (state.Normal? ==> x[i] != ';' && !MarkerAt(x, i))
    requires NextUnit(x, scs, false, i, state) == NextUnit(x, scs, true, i, state) == u
    ensures Leads(x, scs, i, state, u.end, u.state)
  {
    hide NextUnit;
  }

  lemma LeadsOn(x: string, scs: bool, i: nat, a: LexState, j: nat, b: LexState, k: nat, c: LexState)
    requires Leads(x, scs, i, a, j, b) && Leads(x, scs, j, b, k, c)
    ensures Leads(x, scs, i, a, k, c)
  {
  }

  lemma LeadsNowhere(x: string, scs: bool, i: nat, state: LexState)
    requires i <= |x|
    ensures Leads(x, scs, i, state, i, state)
  {
  }

  // ---- Comments ----

  lemma {:induction false} LineLeads(x: string, scs: bool, i: nat, body: string)
    requires '\n' !in body && StandsAt(body, x, i)
    ensures Leads(x, scs, i, LineComment, i + |body|, LineComment)
    decreases |body|
  {
    hide Leads, NormalUnit, QuotedUnit, BlockCommentUnit;
    if body == "" {
      LeadsNowhere(x, scs, i, LineComment);
    } else {
      StandsCharacter(body, x, i, 0);
      assert body == [body[0]] + body[1..] && body[0] in body;
      StandsInParts([body[0]], body[1..], x, i);
      LineLeads(x, scs, i + 1, body[1..]);
      LeadsBy(x, scs, i, LineComment, Unit(i + 1, LineComment, false));
      LeadsOn(x, scs, i, LineComment, i + 1, LineComment, i + |body|, LineComment);
    }
  }

  lemma {:induction false} WordsLead(x: string, scs: bool, i: nat, depth: nat, text: string)
    requires StandsAt(text, x, i) && forall k :: 0 <= k < |text| - 1 ==> !Bracket(text[k], text[k + 1])
    requires text != "" && i + |text| < |x| ==> !Bracket(text[|text| - 1], x[i + |text|])
    ensures Leads(x, scs, i, BlockComment(depth), i + |text|, BlockComment(depth))
    decreases |text|
  {
    hide Leads, NormalUnit, QuotedUnit;
    var state := BlockComment(depth);
    if text == "" {
      LeadsNowhere(x, scs, i, state);
    } else {
      StandsCharacter(text, x, i, 0);
      if |text| > 1 {
        StandsCharacter(text, x, i, 1);
      }
      assert text == [text[0]] + text[1..];
      StandsInParts([text[0]], text[1..], x, i);
      WordsLead(x, scs, i + 1, depth, text[1..]);
      LeadsBy(x, scs, i, state, Unit(i + 1, state, false));
      LeadsOn(x, scs, i, state, i + 1, state, i + |text|, state);
    }
  }

  lemma CommentOpens(x: string, scs: bool, i: nat, depth: nat)
    requires StandsAt("/*", x, i)
    ensures Leads(x, scs, i, BlockComment(depth), i + 2, BlockComment(depth + 1))
    ensures Leads(x, scs, i, Normal, i + 2, BlockComment(1))
  {
    hide Leads;
    StandsCharacter("/*", x, i, 0);
    StandsCharacter("/*", x, i, 1);
    LeadsBy(x, scs, i, BlockComment(depth), Unit(i + 2, BlockComment(depth + 1), false));
    LeadsBy(x, scs, i, Normal, Unit(i + 2, BlockComment(1), false));
  }

  lemma CommentCloses(x: string, scs: bool, i: nat, depth: nat)
    requires StandsAt("*/", x, i)
    ensures Leads(x, scs, i, BlockComment(1), i + 2, Normal)
    ensures depth > 0 ==> Leads(x, scs, i, BlockComment(depth + 1), i + 2, BlockComment(depth))
  {
    hide Leads;
    StandsCharacter("*/", x, i, 0);
    StandsCharacter("*/", x, i, 1);
    LeadsBy(x, scs, i, BlockComment(1), Unit(i + 2, Normal, false));
    if depth > 0 {
      LeadsBy(x, scs, i, BlockComment(depth + 1), Unit(i + 2, BlockComment(depth), false));
    }
  }

  // The text behind `i` begins with the character that `behind` begins with, or there is none.
  predicate Follows(x: string, i: nat, behind: string) {
    if behind == "" then i == |x| else At(x, i, behind[0])
  }

  // What stands in a comment leaves its depth as it was.
  lemma CommentLeads(x: string, scs: bool, i: nat, depth: nat, c: Comment, behind: string)
    requires depth > 0 && CommentFits(c, behind) && StandsAt(CommentText(c), x, i)
    requires Follows(x, i + |CommentText(c)|, behind)
    ensures Leads(x, scs, i, BlockComment(depth), i + |CommentText(c)|, BlockComment(depth))
    decreases c
  {
    hide Leads, Bracket, StandsAt, InnerText, InnerFits;
    match c
    case Words(text) => WordsLead(x, scs, i, depth, text);
    case Nested(inner) =>
      var body, state, deeper := InnerText(inner), BlockComment(depth), BlockComment(depth + 1);
      NestedParts(x, i, body);
      var close := i + 2 + |body|;
      CommentOpens(x, scs, i, depth);
      InnerLeads(x, scs, i + 2, depth + 1, inner, "*/");
      CommentCloses(x, scs, close, depth);
      LeadsOn(x, scs, i, state, i + 2, deeper, close, deeper);
      LeadsOn(x, scs, i, state, close, deeper, close + 2, state);
  }

  lemma InnerLeads(x: string, scs: bool, i: nat, depth: nat, inner: seq<Comment>, behind: string)
    requires depth > 0 && InnerFits(inner, behind) && StandsAt(InnerText(inner), x, i)
    requires Follows(x, i + |InnerText(inner)|, behind)
    ensures Leads(x, scs, i, BlockComment(depth), i + |InnerText(inner)|, BlockComment(depth))
    decreases inner
  {
    hide Leads, StandsAt, CommentText, CommentFits, Follows;
    var state, end := BlockComment(depth), i + |InnerText(inner)|;
    if inner == [] {
      EmptyStands(x, i);
      LeadsNowhere(x, scs, i, state);
    } else {
      var text, rest := CommentText(inner[0]), InnerText(inner[1..]);
      StandsInParts(text, rest, x, i);
      RestFollows(x, i + |text|, rest, behind);
      CommentLeads(x, scs, i, depth, inner[0], rest + behind);
      InnerLeads(x, scs, i + |text|, depth, inner[1..], behind);
      LeadsOn(x, scs, i, state, i + |text|, state, end, state);
    }
  }

  lemma EmptyStands(x: string, i: nat)
    requires StandsAt("", x, i)
    ensures i <= |x|
  {
  }

  lemma RestFollows(x: string, i: nat, rest: string, behind: string)
    requires StandsAt(rest, x, i) && Follows(x, i + |rest|, behind)
    ensures Follows(x, i, rest + behind)
  {
    if rest != "" {
      StandsCharacter(rest, x, i, 0);
    }
  }

  lemma NestedParts(x: string, i: nat, body: string)
    requires StandsAt("/*" + body + "*/", x, i)
    ensures StandsAt("/*", x, i) && StandsAt(body, x, i + 2) && StandsAt("*/", x, i + 2 + |body|)
    ensures Follows(x, i + 2 + |body|, "*/")
  {
    StandsInParts("/*" + body, "*/", x, i);
    StandsInParts("/*", body, x, i);
    StandsCharacter("*/", x, i + 2 + |body|, 0);
  }

  // ---- Names ----

  // What stands in a name.
  lemma {:induction false} NameLeads(x: string, scs: bool, i: nat, name: string)
    requires StandsAt(NameText(name), x, i)
    ensures Leads(x, scs, i, DoubleQuote, i + |NameText(name)|, DoubleQuote)
    decreases |name|
  {
    hide Leads, NormalUnit, BlockCommentUnit, StandsAt;
    if name == "" {
      EmptyStands(x, i);
      LeadsNowhere(x, scs, i, DoubleQuote);
    } else {
      var front, rest := if name[0] == '"' then "\"\"" else [name[0]], NameText(name[1..]);
      StandsInParts(front, rest, x, i);
      StandsCharacter(front, x, i, 0);
      if name[0] == '"' {
        StandsCharacter(front, x, i, 1);
      }
      LeadsBy(x, scs, i, DoubleQuote, Unit(i + |front|, DoubleQuote, false));
      NameLeads(x, scs, i + |front|, name[1..]);
      LeadsOn(x, scs, i, DoubleQuote, i + |front|, DoubleQuote, i + |NameText(name)|, DoubleQuote);
    }
  }

  // ---- Escape strings ----

  // An escape string is read as a literal is where backslashes are special.
  lemma EscapedUnit(x: string, scs: bool, pairs: bool, i: nat)
    requires i < |x|
    ensures var u := NextUnit(x, false, pairs, i, SingleQuote);
            NextUnit(x, scs, pairs, i, EscapeString) == if u.state.SingleQuote? then u.(state := EscapeString) else u
    ensures NextUnit(x, false, pairs, i, SingleQuote).state in {SingleQuote, Normal}
  {
    hide NormalUnit, BlockCommentUnit;
  }

  lemma {:induction false} EscapedLeads(x: string, scs: bool, i: nat, value: string)
    requires Literal(x, i, value) && Intact(value, false)
    ensures Leads(x, scs, i, EscapeString, BodyEnd(i, value), Normal)
    decreases |value|
  {
    hide Leads, NextUnit, Literal, Intact, UnitWidth, UnitChars;
    LiteralUnit(x, false, true, i, value);
    LiteralUnit(x, false, false, i, value);
    EscapedUnit(x, scs, true, i);
    EscapedUnit(x, scs, false, i);
    LeadsBy(x, scs, i, EscapeString, NextUnit(x, scs, false, i, EscapeString));
    assert value == "" ==> BodyEnd(i, value) == i + 1;
    hide BodyEnd;
    if value != "" {
      var next := i + UnitWidth(value, false);
      EscapedLeads(x, scs, next, value[UnitChars(value, false)..]);
      LeadsOn(x, scs, i, EscapeString, next, EscapeString, BodyEnd(i, value), Normal);
    }
  }

  // ---- Dollar quotes ----

  lemma {:induction false} TagEnd(x: string, i: nat, tag: string)
    requires StandsAt(tag, x, i) && At(x, i + |tag|, '$') && forall c <- tag :: IdentifierPart(c)
    ensures IdentifierEnd(x, i) == i + |tag|
    decreases |tag|
  {
    if tag != "" {
      StandsCharacter(tag, x, i, 0);
      assert tag == [tag[0]] + tag[1..] && forall c <- tag[1..] :: c in tag;
      StandsInParts([tag[0]], tag[1..], x, i);
      TagEnd(x, i + 1, tag[1..]);
    }
  }

  lemma DelimiterStands(x: string, i: nat, tag: string)
    requires TagFits(tag) && StandsAt(Delimiter(tag), x, i)
    ensures At(x, i, '$') && TagLength(x, i) == |Delimiter(tag)| && x[i..i + |Delimiter(tag)|] == Delimiter(tag)
  {
    hide IdentifierEnd;
    StandsCharacter(Delimiter(tag), x, i, 0);
    StandsCharacter(Delimiter(tag), x, i, 1);
    if tag != "" {
      StandsCharacter(Delimiter(tag), x, i, |tag| + 1);
      assert Delimiter(tag) == "$" + [tag[0]] + (tag[1..] + "$");
      StandsInParts("$" + [tag[0]], tag[1..] + "$", x, i);
      StandsInParts(tag[1..], "$", x, i + 2);
      assert forall c <- tag[1..] :: c in tag;
      TagEnd(x, i + 2, tag[1..]);
    }
  }

  // The first delimiter behind the body is the one that ends it.
  lemma {:induction false} DelimiterFound(x: string, i: nat, body: string, delimiter: string)
    requires delimiter != "" && StandsAt(body + delimiter, x, i)
    requires forall k :: 0 <= k < |body| ==> !StandsAt(delimiter, body + delimiter, k)
    ensures CloseTag(x, i, delimiter) == Found(i + |body| + |delimiter|)
    decreases |body|
  {
    if body == "" {
      assert body + delimiter == delimiter;
    } else {
      var text, rest := body + delimiter, body[1..] + delimiter;
      assert text == [body[0]] + rest;
      StandsInParts([body[0]], rest, x, i);
      assert !StandsAt(delimiter, text, 0) && text[0..|delimiter|] == x[i..i + |delimiter|];
      forall k | 0 <= k < |body[1..]| ensures !StandsAt(delimiter, rest, k) {
        assert !StandsAt(delimiter, text, k + 1);
        assert k + |delimiter| <= |rest| ==> rest[k..k + |delimiter|] == text[k + 1..k + 1 + |delimiter|];
      }
      DelimiterFound(x, i + 1, body[1..], delimiter);
    }
  }

  lemma {:induction false} DelimiterMissing(x: string, i: nat, body: string, delimiter: string)
    requires delimiter != "" && StandsAt(body, x, i) && i + |body| == |x|
    requires forall k :: 0 <= k < |body| ==> !StandsAt(delimiter, body, k)
    ensures CloseTag(x, i, delimiter) == NotFound
    decreases |body|
  {
    if body != "" {
      var rest := body[1..];
      assert body == [body[0]] + rest;
      StandsInParts([body[0]], rest, x, i);
      assert !StandsAt(delimiter, body, 0) && (|delimiter| <= |body| ==> body[0..|delimiter|] == x[i..i + |delimiter|]);
      forall k | 0 <= k < |rest| ensures !StandsAt(delimiter, rest, k) {
        assert !StandsAt(delimiter, body, k + 1);
        assert k + |delimiter| <= |rest| ==> rest[k..k + |delimiter|] == body[k + 1..k + 1 + |delimiter|];
      }
      DelimiterMissing(x, i + 1, rest, delimiter);
    }
  }

  lemma DollarRead(x: string, i: nat, tag: string, body: string)
    requires TagFits(tag) && StandsAt(Delimiter(tag) + (body + Delimiter(tag)), x, i)
    requires forall k :: 0 <= k < |body| ==> !StandsAt(Delimiter(tag), body + Delimiter(tag), k)
    ensures At(x, i, '$') && TagLength(x, i) > 0
    ensures DollarUnit(x, i) == Unit(i + 2 * |Delimiter(tag)| + |body|, Normal, false)
  {
    hide CloseTag, TagLength, StandsAt, Delimiter;
    var delimiter := Delimiter(tag);
    StandsInParts(delimiter, body + delimiter, x, i);
    DelimiterStands(x, i, tag);
    DelimiterFound(x, i + |delimiter|, body, delimiter);
  }

  lemma DollarLeads(x: string, scs: bool, i: nat, tag: string, body: string)
    requires TokenFits(DollarQuoted(tag, body), scs) && StandsAt(TokenText(DollarQuoted(tag, body)), x, i)
    requires CanOpen(x, i)
    ensures Leads(x, scs, i, Normal, i + |TokenText(DollarQuoted(tag, body))|, Normal)
  {
    hide Leads, TagLength, DollarUnit, StandsAt, Delimiter, QuotedUnit, BlockCommentUnit, CanOpen, TagFits;
    DollarRead(x, i, tag, body);
    LeadsBy(x, scs, i, Normal, DollarUnit(x, i));
  }

  // ---- Tokens of one state ----

  lemma WordLeads(x: string, scs: bool, i: nat, text: string, k: nat)
    requires TokenFits(Word(text), scs) && StandsAt(text, x, i) && k <= |text|
    requires i + |text| < |x| ==> Apart(Word(text), x[i + |text|])
    ensures Leads(x, scs, i + k, Normal, i + |text|, Normal)
    decreases |text| - k
  {
    hide Leads, TagLength, DollarUnit;
    if k == |text| {
      LeadsNowhere(x, scs, i + k, Normal);
    } else {
      WordCharacter(x, scs, i, text, k);
      WordLeads(x, scs, i, text, k + 1);
      LeadsOn(x, scs, i + k, Normal, i + k + 1, Normal, i + |text|, Normal);
    }
  }

  lemma WordCharacter(x: string, scs: bool, i: nat, text: string, k: nat)
    requires TokenFits(Word(text), scs) && StandsAt(text, x, i) && k < |text|
    requires i + |text| < |x| ==> Apart(Word(text), x[i + |text|])
    ensures Leads(x, scs, i + k, Normal, i + k + 1, Normal)
  {
    hide Leads, StandsAt, TagLength, DollarUnit;
    StandsCharacter(text, x, i, k);
    assert WordPart(text, k);
    if k + 1 < |text| {
      assert WordPart(text, k + 1);
      StandsCharacter(text, x, i, k + 1);
    }
    if k > 0 {
      StandsCharacter(text, x, i, k - 1);
    }
    LeadsBy(x, scs, i + k, Normal, Unit(i + k + 1, Normal, false));
  }

  lemma SymbolLeads(x: string, scs: bool, i: nat, t: Token)
    requires t.Space? || t.Symbol? || t.Dollar?
    requires TokenFits(t, scs) && StandsAt(TokenText(t), x, i) && (i + 1 < |x| ==> Apart(t, x[i + 1]))
    ensures Leads(x, scs, i, Normal, i + 1, Normal)
  {
    hide Leads, StandsAt, DollarUnit;
    StandsCharacter(TokenText(t), x, i, 0);
    LeadsBy(x, scs, i, Normal, Unit(i + 1, Normal, false));
  }

  lemma QuotedLeads(x: string, scs: bool, i: nat, value: string)
    requires Intact(value, scs) && StandsAt(Written(value), x, i)
    requires i + |Written(value)| < |x| ==> x[i + |Written(value)|] != QUOTE
    ensures Leads(x, scs, i, Normal, i + |Written(value)|, Normal)
  {
    WrittenStands(x, i, value);
    hide Literal, Written;
    WrittenLiteralIsOpaque(x, scs, false, i, value);
  }

  lemma WrittenStands(x: string, i: nat, value: string)
    requires StandsAt(Written(value), x, i)
    requires i + |Written(value)| < |x| ==> x[i + |Written(value)|] != QUOTE
    ensures At(x, i, QUOTE) && Literal(x, i + 1, value) && BodyEnd(i + 1, value) == i + |Written(value)|
  {
    hide Doubled;
    assert Written(value) == [QUOTE] + (Doubled(value) + "'");
    StandsInParts([QUOTE], Doubled(value) + "'", x, i);
    StandsCharacter([QUOTE], x, i, 0);
    BodyIsDoubling(x, i + 1, value);
  }

  lemma EscapedTokenLeads(x: string, scs: bool, i: nat, prefix: char, value: string)
    requires prefix in {'E', 'e'} && Intact(value, false) && StandsAt([prefix] + Written(value), x, i)
    requires var end := i + 1 + |Written(value)|; end < |x| ==> x[end] != QUOTE
    ensures Leads(x, scs, i, Normal, i + 1 + |Written(value)|, Normal)
  {
    hide Leads, Intact, StandsAt;
    StandsInParts([prefix], Written(value), x, i);
    StandsCharacter([prefix], x, i, 0);
    WrittenStands(x, i + 1, value);
    hide Literal, Written;
    LeadsBy(x, scs, i, Normal, Unit(i + 2, EscapeString, false));
    EscapedLeads(x, scs, i + 2, value);
    LeadsOn(x, scs, i, Normal, i + 2, EscapeString, i + 1 + |Written(value)|, Normal);
  }

  lemma NameTokenLeads(x: string, scs: bool, i: nat, name: string)
    requires StandsAt("\"" + NameText(name) + "\"", x, i)
    requires var end := i + |NameText(name)| + 2; end < |x| ==> x[end] != '"'
    ensures Leads(x, scs, i, Normal, i + |NameText(name)| + 2, Normal)
  {
    hide Leads, StandsAt, NameText;
    var close := i + 1 + |NameText(name)|;
    StandsInParts("\"" + NameText(name), "\"", x, i);
    StandsInParts("\"", NameText(name), x, i);
    NameOpens(x, scs, i);
    NameLeads(x, scs, i + 1, name);
    NameCloses(x, scs, close);
    LeadsOn(x, scs, i, Normal, i + 1, DoubleQuote, close, DoubleQuote);
    LeadsOn(x, scs, i, Normal, close, DoubleQuote, close + 1, Normal);
  }

  lemma NameOpens(x: string, scs: bool, i: nat)
    requires StandsAt("\"", x, i)
    ensures Leads(x, scs, i, Normal, i + 1, DoubleQuote)
  {
    hide Leads;
    StandsCharacter("\"", x, i, 0);
    LeadsBy(x, scs, i, Normal, Unit(i + 1, DoubleQuote, false));
  }

  lemma NameCloses(x: string, scs: bool, i: nat)
    requires StandsAt("\"", x, i) && !At(x, i + 1, '"')
    ensures Leads(x, scs, i, DoubleQuote, i + 1, Normal)
  {
    hide Leads;
    StandsCharacter("\"", x, i, 0);
    LeadsBy(x, scs, i, DoubleQuote, Unit(i + 1, Normal, false));
  }

  lemma LineTokenLeads(x: string, scs: bool, i: nat, body: string)
    requires '\n' !in body && StandsAt("--" + (body + "\n"), x, i)
    ensures Leads(x, scs, i, Normal, i + |body| + 3, Normal)
  {
    hide Leads, StandsAt;
    StandsInParts("--", body + "\n", x, i);
    StandsInParts(body, "\n", x, i + 2);
    LineOpens(x, scs, i);
    LineLeads(x, scs, i + 2, body);
    var end := i + 2 + |body|;
    StandsCharacter("\n", x, end, 0);
    LeadsBy(x, scs, end, LineComment, Unit(end + 1, Normal, false));
    LeadsOn(x, scs, i, Normal, i + 2, LineComment, end, LineComment);
    LeadsOn(x, scs, i, Normal, end, LineComment, end + 1, Normal);
  }

  lemma LineOpens(x: string, scs: bool, i: nat)
    requires StandsAt("--", x, i)
    ensures Leads(x, scs, i, Normal, i + 2, LineComment)
  {
    hide Leads;
    StandsCharacter("--", x, i, 0);
    StandsCharacter("--", x, i, 1);
    LeadsBy(x, scs, i, Normal, Unit(i + 2, LineComment, false));
  }

  lemma BlockTokenLeads(x: string, scs: bool, i: nat, inner: seq<Comment>)
    requires InnerFits(inner, "*/") && StandsAt("/*" + (InnerText(inner) + "*/"), x, i)
    ensures Leads(x, scs, i, Normal, i + |InnerText(inner)| + 4, Normal)
  {
    hide Leads, StandsAt, InnerText, InnerFits;
    var body := InnerText(inner);
    assert "/*" + (body + "*/") == "/*" + body + "*/";
    NestedParts(x, i, body);
    var close := i + 2 + |body|;
    CommentOpens(x, scs, i, 1);
    InnerLeads(x, scs, i + 2, 1, inner, "*/");
    CommentCloses(x, scs, close, 0);
    LeadsOn(x, scs, i, Normal, i + 2, BlockComment(1), close, BlockComment(1));
    LeadsOn(x, scs, i, Normal, close, BlockComment(1), close + 2, Normal);
  }

  // Every token but a separator and a marker is passed over whole.
  lemma TokenLeads(x: string, scs: bool, i: nat, t: Token)
    requires !t.Semicolon? && !t.Mark? && !t.Pair?
    requires TokenFits(t, scs) && StandsAt(TokenText(t), x, i) && (t.DollarQuoted? ==> CanOpen(x, i))
    requires var end := i + |TokenText(t)|; end < |x| ==> Apart(t, x[end])
    ensures Leads(x, scs, i, Normal, i + |TokenText(t)|, Normal)
  {
    hide Leads, StandsAt, InnerText, InnerFits, NameText, Written, Intact;
    match t
    case Word(text) => WordLeads(x, scs, i, text, 0);
    case Quoted(value) => QuotedLeads(x, scs, i, value);
    case Escaped(prefix, value) => EscapedTokenLeads(x, scs, i, prefix, value);
    case Name(name) => NameTokenLeads(x, scs, i, name);
    case DollarQuoted(tag, body) => DollarLeads(x, scs, i, tag, body);
    case Line(body) => LineTokenLeads(x, scs, i, body);
    case Block(inner) => BlockTokenLeads(x, scs, i, inner);
    case _ => SymbolLeads(x, scs, i, t);
  }

  // ---- Whole texts ----

  // The texts between the separators; `tail` ends the last one.
  function Runs(tokens: seq<Token>, tail: string): (runs: seq<string>)
    ensures runs != []
  {
    if tokens == [] then [tail]
    else
      var rest := Runs(tokens[1..], tail);
      if tokens[0].Semicolon? then [""] + rest else [TokenText(tokens[0]) + rest[0]] + rest[1..]
  }

  function Marks(tokens: seq<Token>): nat {
    if tokens == [] then 0 else (if tokens[0].Mark? then 1 else 0) + Marks(tokens[1..])
  }

  // What the text of a token means for the lexers.
  lemma TokenRead(x: string, scs: bool, i: nat, t: Token)
    requires TokenFits(t, scs) && StandsAt(TokenText(t), x, i) && (t.DollarQuoted? ==> CanOpen(x, i))
    requires var end := i + |TokenText(t)|; end < |x| ==> Apart(t, x[end])
    ensures var end := i + |TokenText(t)|;
            && i < end <= |x|
            && CutAt(x, scs, false, i, Normal) == (if t.Semicolon? then i else CutAt(x, scs, false, end, Normal))
            && Markers(x, scs, i, Normal) == (if t.Mark? then 1 else 0) + Markers(x, scs, end, Normal)
            && (Closed(x, scs, i, Normal) <==> Closed(x, scs, end, Normal))
  {
    hide StandsAt, NextUnit, InnerText, NameText, Written;
    TokenNotEmpty(t, scs);
    if t.Semicolon? || t.Mark? || t.Pair? {
      SignRead(x, scs, i, t);
    } else {
      TokenLeads(x, scs, i, t);
    }
  }

  lemma TokenNotEmpty(t: Token, scs: bool)
    requires TokenFits(t, scs)
    ensures TokenText(t) != ""
  {
  }

  lemma SignRead(x: string, scs: bool, i: nat, t: Token)
    requires t.Semicolon? || t.Mark? || t.Pair?
    requires StandsAt(TokenText(t), x, i)
    requires var end := i + |TokenText(t)|; end < |x| ==> Apart(t, x[end])
    ensures var end := i + |TokenText(t)|;
            && i < end <= |x|
            && CutAt(x, scs, false, i, Normal) == (if t.Semicolon? then i else CutAt(x, scs, false, end, Normal))
            && Markers(x, scs, i, Normal) == (if t.Mark? then 1 else 0) + Markers(x, scs, end, Normal)
            && (Closed(x, scs, i, Normal) <==> Closed(x, scs, end, Normal))
  {
    hide NextUnit;
    StandsCharacter(TokenText(t), x, i, 0);
    PlainUnit(x, scs, false, i);
    if t.Pair? {
      StandsCharacter(TokenText(t), x, i, 1);
      PlainUnit(x, scs, false, i + 1);
      PairUnit(x, scs, i);
      assert CutAt(x, scs, false, i + 1, Normal) == CutAt(x, scs, false, i + 2, Normal);
    } else {
      PlainUnit(x, scs, true, i);
    }
  }

  lemma PairUnit(x: string, scs: bool, i: nat)
    requires PairAt(x, i)
    ensures NextUnit(x, scs, true, i, Normal) == Unit(i + 2, Normal, false)
  {
  }

  // The tokens are read one after the other, up to a tail that holds no separator and no marker.
  lemma TokensFrom(x: string, scs: bool, i: nat, tokens: seq<Token>, tail: string)
    requires Fit(tokens, tail, scs) && i <= |x| && x[i..] == Print(tokens) + tail && TailRead(x, scs, tail)
    requires tokens != [] && tokens[0].DollarQuoted? ==> CanOpen(x, i)
    ensures Pieces(x, scs, i) == Runs(tokens, tail) && Markers(x, scs, i, Normal) == Marks(tokens)
    ensures Closed(x, scs, i, Normal) <==> Closed(x, scs, |x| - |tail|, Normal)
    decreases |tokens|
  {
    hide CutAt, Markers, Closed, Pieces, StandsAt, TokenText, Apart, TokenFits, CanOpen, Print, Runs, TailRead;
    if tokens == [] {
      TailIsLast(x, scs, i, tail);
    } else {
      var t, rest := tokens[0], tokens[1..];
      var end := i + |TokenText(t)|;
      PrintStands(x, i, tokens, tail);
      TokenRead(x, scs, i, t);
      CanOpenBehind(x, scs, i, tokens, tail);
      TokensFrom(x, scs, end, rest, tail);
      RunsGrow(x, scs, i, end, tokens, tail);
    }
  }

  ghost predicate TailRead(x: string, scs: bool, tail: string) {
    && |tail| <= |x|
    && CutAt(x, scs, false, |x| - |tail|, Normal) == |x| && Markers(x, scs, |x| - |tail|, Normal) == 0
  }

  lemma TailIsLast(x: string, scs: bool, i: nat, tail: string)
    requires i <= |x| && x[i..] == Print([]) + tail && TailRead(x, scs, tail)
    ensures i == |x| - |tail| && Pieces(x, scs, i) == Runs([], tail) && Markers(x, scs, i, Normal) == Marks([])
  {
    assert x[i..] == tail;
  }

  lemma RunsGrow(x: string, scs: bool, i: nat, end: nat, tokens: seq<Token>, tail: string)
    requires tokens != [] && i < end <= |x| && x[i..end] == TokenText(tokens[0])
    requires Pieces(x, scs, end) == Runs(tokens[1..], tail)
    requires if tokens[0].Semicolon? then end == i + 1 && CutAt(x, scs, false, i, Normal) == i
             else CutAt(x, scs, false, i, Normal) == CutAt(x, scs, false, end, Normal)
    ensures Pieces(x, scs, i) == Runs(tokens, tail)
  {
    hide CutAt, Pieces, TokenText;
    if tokens[0].Semicolon? {
      PiecesAt(x, scs, i, i);
      assert x[i..i] == "";
    } else {
      PieceGrows(x, scs, i, end);
    }
  }

  lemma PrintStands(x: string, i: nat, tokens: seq<Token>, tail: string)
    requires tokens != [] && i <= |x| && x[i..] == Print(tokens) + tail
    ensures var end, rest := i + |TokenText(tokens[0])|, Print(tokens[1..]) + tail;
            && end <= |x| && StandsAt(TokenText(tokens[0]), x, i) && x[i..end] == TokenText(tokens[0])
            && x[end..] == rest && (tokens[0].Semicolon? ==> end == i + 1)
            && (end < |x| <==> rest != "") && (end < |x| ==> x[end] == rest[0])
  {
    hide Print, TokenText, StandsAt;
    var text, rest := TokenText(tokens[0]), Print(tokens[1..]);
    PrintUnfold(tokens);
    SemicolonText(tokens[0]);
    assert (text + rest) + tail == text + (rest + tail);
    CutFront(x, i, text, rest + tail);
  }

  lemma PrintUnfold(tokens: seq<Token>)
    requires tokens != []
    ensures Print(tokens) == TokenText(tokens[0]) + Print(tokens[1..])
  {
  }

  lemma SemicolonText(t: Token)
    ensures t.Semicolon? ==> |TokenText(t)| == 1
  {
  }

  lemma CutFront(x: string, i: nat, text: string, rest: string)
    requires i <= |x| && x[i..] == text + rest
    ensures var end := i + |text|;
            && end <= |x| && StandsAt(text, x, i) && x[i..end] == text && x[end..] == rest
            && (end < |x| <==> rest != "") && (end < |x| ==> x[end] == rest[0])
  {
    assert x[i..i + |text|] == x[i..][..|text|] && x[i + |text|..] == x[i..][|text|..];
  }

  // Only a word ends in a character of an identifier, and no dollar stands behind that.
  lemma CanOpenBehind(x: string, scs: bool, i: nat, tokens: seq<Token>, tail: string)
    requires tokens != [] && Fit(tokens, tail, scs) && i <= |x| && x[i..] == Print(tokens) + tail
    ensures i + |TokenText(tokens[0])| <= |x|
    ensures |tokens| > 1 && tokens[1].DollarQuoted? ==> CanOpen(x, i + |TokenText(tokens[0])|)
    ensures |tokens| == 1 && tail != "" && tail[0] == '$' ==> CanOpen(x, i + |TokenText(tokens[0])|)
  {
    hide Print, TokenText, TokenFits, StandsAt, IdentifierPart;
    var text, end := TokenText(tokens[0]), i + |TokenText(tokens[0])|;
    LastCharacter(tokens[0], scs);
    PrintStands(x, i, tokens, tail);
    assert x[end - 1] == text[|text| - 1];
    if end < |x| && x[end] == '$' {
      DollarBehind(tokens[0], '$');
    }
    if |tokens| > 1 {
      PrintUnfold(tokens[1..]);
      DollarFirst(tokens[1]);
    } else {
      assert tokens[1..] == [];
      NothingPrinted();
    }
  }

  lemma NothingPrinted()
    ensures Print([]) == ""
  {
  }

  lemma DollarFirst(t: Token)
    ensures t.DollarQuoted? ==> TokenText(t) != "" && TokenText(t)[0] == '$'
  {
  }

  lemma DollarBehind(t: Token, next: char)
    requires Apart(t, next) && next == '$'
    ensures t.Word? && t.text != "" ==> !IdentifierPart(t.text[|t.text| - 1])
    ensures t.Word? ==> TokenText(t) == t.text
  {
  }

  lemma LastCharacter(t: Token, scs: bool)
    requires TokenFits(t, scs)
    ensures var text := TokenText(t); text != "" && (IdentifierPart(text[|text| - 1]) ==> t.Word?)
  {
  }

  // Where no separator stands in front, the first piece grows.
  lemma PieceGrows(x: string, scs: bool, i: nat, end: nat)
    requires i <= end <= |x| && CutAt(x, scs, false, i, Normal) == CutAt(x, scs, false, end, Normal)
    ensures Pieces(x, scs, i) == [x[i..end] + Pieces(x, scs, end)[0]] + Pieces(x, scs, end)[1..]
  {
    hide CutAt, Pieces;
    var cut := CutAt(x, scs, false, end, Normal);
    PiecesAt(x, scs, i, cut);
    PiecesAt(x, scs, end, cut);
    assert x[i..cut] == x[i..end] + x[end..cut];
  }

  // ---- What is left open ----

  // Text that ends inside a token.
  datatype Unfinished =
    | OpenLine(body: string)
    | OpenBlock(levels: seq<seq<Comment>>)       // what stands in each comment that is still open
    | OpenName(name: string)
    | OpenDollar(tag: string, body: string)

  function LevelsText(levels: seq<seq<Comment>>): string {
    if levels == [] then "" else "/*" + (InnerText(levels[0]) + LevelsText(levels[1..]))
  }

  function UnfinishedText(u: Unfinished): string {
    match u
    case OpenLine(body) => "--" + body
    case OpenBlock(levels) => LevelsText(levels)
    case OpenName(name) => "\"" + NameText(name)
    case OpenDollar(tag, body) => Delimiter(tag) + body
  }

  predicate LevelsFit(levels: seq<seq<Comment>>) {
    levels == [] || (InnerFits(levels[0], LevelsText(levels[1..])) && LevelsFit(levels[1..]))
  }

  predicate UnfinishedFits(u: Unfinished) {
    match u
    case OpenLine(body) => '\n' !in body
    case OpenBlock(levels) => levels != [] && LevelsFit(levels)
    case OpenName(_) => true
    case OpenDollar(tag, body) =>
      TagFits(tag) && forall k :: 0 <= k < |body| ==> !StandsAt(Delimiter(tag), body, k)
  }

  // From `i` on nothing ends a statement, nothing is a marker, and something stays open.
  ghost predicate StaysOpen(x: string, scs: bool, i: nat, state: LexState) {
    i <= |x| && CutAt(x, scs, false, i, state) == |x| && Markers(x, scs, i, state) == 0 && !Closed(x, scs, i, state)
  }

  lemma OpenAtEnd(x: string, scs: bool, i: nat, state: LexState, reached: LexState)
    requires Leads(x, scs, i, state, |x|, reached) && !reached.Normal?
    ensures StaysOpen(x, scs, i, state)
  {
  }

  lemma {:induction false} LevelsLead(x: string, scs: bool, i: nat, depth: nat, levels: seq<seq<Comment>>)
    requires LevelsFit(levels) && StandsAt(LevelsText(levels), x, i) && i + |LevelsText(levels)| == |x|
    requires depth > 0 || levels != []
    ensures var state := if depth == 0 then Normal else BlockComment(depth);
            Leads(x, scs, i, state, |x|, BlockComment(depth + |levels|))
    decreases |levels|
  {
    hide Leads, InnerText, InnerFits, StandsAt;
    var state := if depth == 0 then Normal else BlockComment(depth);
    if levels == [] {
      LeadsNowhere(x, scs, i, state);
    } else {
      var body, rest := InnerText(levels[0]), LevelsText(levels[1..]);
      StandsInParts("/*", body + rest, x, i);
      StandsInParts(body, rest, x, i + 2);
      RestFollowsEnd(x, i + 2 + |body|, rest);
      CommentOpens(x, scs, i, depth);
      InnerLeads(x, scs, i + 2, depth + 1, levels[0], rest);
      LevelsLead(x, scs, i + 2 + |body|, depth + 1, levels[1..]);
      var deeper, end := BlockComment(depth + 1), BlockComment(depth + |levels|);
      LeadsOn(x, scs, i, state, i + 2, deeper, i + 2 + |body|, deeper);
      LeadsOn(x, scs, i, state, i + 2 + |body|, deeper, |x|, end);
    }
  }

  lemma RestFollowsEnd(x: string, i: nat, rest: string)
    requires StandsAt(rest, x, i) && i + |rest| == |x|
    ensures Follows(x, i, rest)
  {
    if rest != "" {
      StandsCharacter(rest, x, i, 0);
    }
  }

  lemma OpenDollarRead(x: string, scs: bool, i: nat, tag: string, body: string)
    requires UnfinishedFits(OpenDollar(tag, body)) && StandsAt(Delimiter(tag) + body, x, i) && CanOpen(x, i)
    requires i + |Delimiter(tag)| + |body| == |x|
    ensures StaysOpen(x, scs, i, Normal)
  {
    hide CloseTag, TagLength, StandsAt, Delimiter, TagFits;
    var delimiter := Delimiter(tag);
    StandsInParts(delimiter, body, x, i);
    DelimiterStands(x, i, tag);
    DelimiterMissing(x, i + |delimiter|, body, delimiter);
    assert DollarUnit(x, i) == Unit(|x|, Normal, true);
    hide DollarUnit;
    assert NextUnit(x, scs, false, i, Normal) == NextUnit(x, scs, true, i, Normal) == DollarUnit(x, i);
    LastUnit(x, scs, i);
  }

  lemma LastUnit(x: string, scs: bool, i: nat)
    requires i < |x| && x[i] != ';' && !MarkerAt(x, i)
    requires NextUnit(x, scs, false, i, Normal) == NextUnit(x, scs, true, i, Normal) == Unit(|x|, Normal, true)
    ensures StaysOpen(x, scs, i, Normal)
  {
    hide NextUnit;
    assert CutAt(x, scs, false, |x|, Normal) == |x| && Markers(x, scs, |x|, Normal) == 0;
  }

  lemma UnfinishedRead(x: string, scs: bool, i: nat, u: Unfinished)
    requires UnfinishedFits(u) && i <= |x| && x[i..] == UnfinishedText(u) && (u.OpenDollar? ==> CanOpen(x, i))
    ensures StaysOpen(x, scs, i, Normal)
  {
    hide Leads, StaysOpen, InnerText, LevelsText, LevelsFit, NameText, Delimiter;
    assert StandsAt(UnfinishedText(u), x, i);
    hide StandsAt;
    match u
    case OpenLine(body) =>
      StandsInParts("--", body, x, i);
      LineOpens(x, scs, i);
      LineLeads(x, scs, i + 2, body);
      LeadsOn(x, scs, i, Normal, i + 2, LineComment, |x|, LineComment);
      OpenAtEnd(x, scs, i, Normal, LineComment);
    case OpenBlock(levels) =>
      LevelsLead(x, scs, i, 0, levels);
      OpenAtEnd(x, scs, i, Normal, BlockComment(|levels|));
    case OpenName(name) =>
      StandsInParts("\"", NameText(name), x, i);
      NameOpens(x, scs, i);
      NameLeads(x, scs, i + 1, name);
      LeadsOn(x, scs, i, Normal, i + 1, DoubleQuote, |x|, DoubleQuote);
      OpenAtEnd(x, scs, i, Normal, DoubleQuote);
    case OpenDollar(tag, body) => OpenDollarRead(x, scs, i, tag, body);
  }

  // ---- The theorems ----

  /**
   A text of tokens is split exactly at its separators, holds exactly its markers, and leaves nothing
   open: no semicolon and no question mark within a literal, a name, a dollar quote or a comment counts,
   and each of them ends where it was written.
   */
  lemma TokensAreRead(tokens: seq<Token>, scs: bool)
    requires Fit(tokens, "", scs)
    ensures Split(Print(tokens), scs) == Fragments(Runs(tokens, ""))
    ensures Markers(Print(tokens), scs, 0, Normal) == Marks(tokens)
    ensures LexicallyClosed(Print(tokens), scs)
  {
    hide Pieces, Runs, Fit;
    var x := Print(tokens);
    assert x[0..] == x + "";
    TokensFrom(x, scs, 0, tokens, "");
  }

  /**
   Text that ends within a comment, a name or a dollar quote is left open, and all of it from there
   belongs to the last statement and holds no marker.
   */
  lemma UnfinishedIsRead(tokens: seq<Token>, u: Unfinished, scs: bool)
    requires Fit(tokens, UnfinishedText(u), scs) && UnfinishedFits(u)
    ensures var x := Print(tokens) + UnfinishedText(u);
            && Split(x, scs) == Fragments(Runs(tokens, UnfinishedText(u)))
            && Markers(x, scs, 0, Normal) == Marks(tokens) && !LexicallyClosed(x, scs)
  {
    hide CutAt, Markers, Closed, Pieces, Runs, Fit, CanOpen, UnfinishedText, UnfinishedFits;
    var x, tail := Print(tokens) + UnfinishedText(u), UnfinishedText(u);
    var i := |Print(tokens)|;
    assert x[0..] == x && x[i..] == tail;
    UnfinishedOpens(tokens, u, scs);
    UnfinishedRead(x, scs, i, u);
    TokensFrom(x, scs, 0, tokens, tail);
  }

  lemma UnfinishedOpens(tokens: seq<Token>, u: Unfinished, scs: bool)
    requires Fit(tokens, UnfinishedText(u), scs)
    ensures u.OpenDollar? ==> CanOpen(Print(tokens) + UnfinishedText(u), |Print(tokens)|)
    ensures tokens != [] && tokens[0].DollarQuoted? ==> CanOpen(Print(tokens) + UnfinishedText(u), 0)
  {
    hide Fit, Print, IdentifierPart;
    if u.OpenDollar? {
      assert UnfinishedText(u)[0] == '$';
      NoWordInFront(tokens, UnfinishedText(u), scs);
    }
  }

  lemma {:induction false} NoWordInFront(tokens: seq<Token>, tail: string, scs: bool)
    requires Fit(tokens, tail, scs) && tail != "" && tail[0] == '$'
    ensures Print(tokens) != "" ==> !IdentifierPart(Print(tokens)[|Print(tokens)| - 1])
  {
    if tokens != [] {
      LastCharacter(tokens[0], scs);
      hide IdentifierPart, TokenFits, TokenText;
      NoWordInFront(tokens[1..], tail, scs);
    }
  }

  /** Where the scanner finds nothing to rewrite it counts the markers of the tokens as well. */
  lemma TokensAreScanned(tokens: seq<Token>, scs: bool)
    requires Fit(tokens, "", scs) && PlainText(Print(tokens), scs)
    ensures |Scanned(Print(tokens), scs).consumed| == Marks(tokens)
    ensures Original(Scanned(Print(tokens), scs).output) == Print(tokens)
  {
    hide Print, Fit, Scanned, PlainText;
    TokensAreRead(tokens, scs);
    PlainIsScanned(Print(tokens), scs);
  }

  /** A semicolon on the line behind a comment ends the statement, and the comment ends with its line. */
  lemma CommentEndsWithLine(body: string, rest: string, scs: bool)
    requires '\n' !in body
    ensures Split("--" + body + "\n;" + rest, scs) == [Trim("--" + body)] + Split(rest, scs)
  {
    hide Split, LexicallyClosed, Markers, Trim, Print, Runs, Fit;
    var comment := "--" + (body + "\n");
    OneLine(body, scs);
    TokensAreRead([Line(body)], scs);
    FragmentsOfOne(comment);
    LineTrimmed(body);
    SplitIsCompositional(comment, rest, scs);
    assert "--" + body + "\n;" + rest == comment + ";" + rest;
  }

  lemma OneLine(body: string, scs: bool)
    requires '\n' !in body
    ensures var tokens, comment := [Line(body)], "--" + (body + "\n");
            Fit(tokens, "", scs) && Print(tokens) == comment && Runs(tokens, "") == [comment]
  {
    var tokens, comment := [Line(body)], "--" + (body + "\n");
    assert tokens[1..] == [] && comment + "" == comment;
    assert Print(tokens[1..]) == "" && Runs(tokens[1..], "") == [""] && Fit(tokens[1..], "", scs);
    assert TokenFits(Line(body), scs) && Runs(tokens[1..], "")[1..] == [];
  }

  lemma LineTrimmed(body: string)
    ensures Trim("--" + (body + "\n")) == Trim("--" + body) != ""
  {
    hide TrimRight;
    var x := "--" + (body + "\n");
    assert x == "--" + body + "\n" && x[..|x| - 1] == "--" + body;
    BlankDropped(x);
    DashKept("--" + body);
  }

  lemma BlankDropped(s: string)
    requires s != "" && Blank(s[|s| - 1])
    ensures TrimRight(s) == TrimRight(s[..|s| - 1])
  {
  }

  lemma DashKept(s: string)
    requires s != "" && !Blank(s[0])
    ensures TrimRight(s) != ""
  {
    TrimRightKeeps(s, 0);
  }
}
