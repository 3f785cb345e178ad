/**
 Whole statements printed from trees: when the scanner translates one into what it means, and examples.
 */
module EscapeTranslation {
  import opened EscapeModel
  import opened EscapeTrees
  import opened FunctionTemplates
  import opened NestedEscapes
  import opened QuotedLiterals
  import opened ScannerModel
  import opened SqlLexer

  // ---- Where "() VALUES ()" is rewritten ----

  // The two outputs differ at a place that both have.
  ghost predicate Departs(a: seq<Item>, b: seq<Item>) {
    exists k :: 0 <= k < |a| && k < |b| && a[k] != b[k]
  }

  lemma DepartsOn(a: seq<Item>, a': seq<Item>, b: seq<Item>, b': seq<Item>)
    requires Departs(a, b) && a <= a' && b <= b'
    ensures Departs(a', b')
  {
    var k :| 0 <= k < |a| && k < |b| && a[k] != b[k];
    assert a'[k] == a[k] && b'[k] == b[k];
  }

  lemma BehindGrows(s: Scan, width: nat, items: seq<Item>, marks: seq<nat>)
    ensures s.output <= Behind(s, width, items, marks).output
  {
  }

  // A parenthesis that begins such a run in an INSERT statement.
  lemma RunDeparts(x: string, scs: bool, s: Scan, inner: seq<Part>)
    requires s.state.Normal? && At(x, s.at, '(') && !Stays(x, s.at)
    ensures Departs(Step(x, scs, s).output, BehindPart(s, Group(inner)).output)
  {
    hide EmptyValuesEnd, StatementIsInsert, KeywordAt, Printed, Meaning, Marks;
    RewritesBy(x, s.at);
    var end := EmptyValuesEnd(x, s.at);
    assert Step(x, scs, s) == Replaced(s, end, "DEFAULT VALUES");
    var a, b := Step(x, scs, s).output, BehindPart(s, Group(inner)).output;
    assert a[|s.output|] == Text('D') && b[|s.output|] == Text('(');
  }

  lemma GroupDeparts(x: string, scs: bool, s: Scan, inner: seq<Part>, barred: set<char>, stop: set<char>)
      returns (t: Scan)
    requires s.state.Normal? && Printable(inner, barred - {','}, scs) && stop <= barred * {'}'}
    requires Kept(x, inner, s.at + 1, InsideCalls) && !PartKept(x, Group(inner), s.at, OutsideCalls)
    requires StandsAt("(" + Printed(inner) + ")", x, s.at)
    ensures Reaches(x, scs, s, t, stop) && Departs(t.output, BehindPart(s, Group(inner)).output)
    decreases inner, 1
  {
    hide Reaches, Step, Behind, StandsAt, Printed, Meaning;
    hide Marks, Printable, Kept, Stays, Departs, PartMeaning, PartMarks;
    GroupStands(x, s.at, inner);
    if !Stays(x, s.at) {
      RunDeparts(x, scs, s, inner);
      OneStepReaches(x, scs, s, stop);
      t := Step(x, scs, s);
    } else {
      var open := Replaced(s, s.at + 1, "(");
      ParenthesisReached(x, scs, s, stop);
      t := PartsDepart(x, scs, open, inner, barred - {','}, stop);
      ReachesOn(x, scs, s, open, t, stop);
      GroupBehind(s, inner);
      InnerFirst(BehindParts(open, inner), ")");
      DepartsOn(t.output, t.output, BehindParts(open, inner).output, BehindPart(s, Group(inner)).output);
    }
  }

  lemma InnerFirst(t: Scan, text: string)
    ensures t.output <= Replaced(t, t.at + 1, text).output
  {
  }

  lemma JoinDeparts(x: string, scs: bool, s: Scan, body: seq<Part>)
    requires s.state.Normal? && PartPrintable(Join(body), {}, scs)
    requires Kept(x, body, s.at + 4, InsideCalls) && !Kept(x, body, s.at + 4, OutsideCalls)
    requires StandsAt(PrintedPart(Join(body)), x, s.at)
    ensures At(x, s.at, '{') && Departs(Step(x, scs, s).output, BehindPart(s, Join(body)).output)
    decreases body, 1
  {
    hide Reaches, Step, Behind, StandsAt, Printed, Meaning, Marks, Printable, Kept, Departs, PrintedPart, CopyBody;
    PrintedInside(Join(body), x, s.at);
    JoinOpens(x, scs, s, body);
    var inside := s.(at := s.at + 4);
    var t := PartsDepart(x, scs, inside, body, {'}'}, {'}'});
    ReachesInside(x, scs, inside, t, {'}'});
    CopyReaches(x, scs, inside, t, {'}'});
    CopyBodyKeeps(x, scs, t);
    JoinBehind(s, body);
    DepartsOn(t.output, CopyBody(x, scs, t).output, BehindParts(inside, body).output, BehindPart(s, Join(body)).output);
  }

  // The first run outside the calls is reached, and written otherwise than the parts mean.
  lemma PartsDepart(x: string, scs: bool, s: Scan, parts: seq<Part>, barred: set<char>, stop: set<char>)
      returns (t: Scan)
    requires s.state.Normal? && Printable(parts, barred, scs) && stop <= barred * {'}'}
    requires Kept(x, parts, s.at, InsideCalls) && !Kept(x, parts, s.at, OutsideCalls)
    requires StandsAt(Printed(parts), x, s.at) && Ends(x, s.at + |Printed(parts)|)
    ensures Reaches(x, scs, s, t, stop) && Departs(t.output, BehindParts(s, parts).output)
    decreases parts, 0
  {
    hide Reaches, Step, Behind, StandsAt, PrintedPart;
    hide PartMeaning, PartMarks, PartPrintable, PartKept, Joining, Departs;
    var p, rest := parts[0], parts[1..];
    var behind := BehindPart(s, p);
    PartsUnfold(parts, s.at, |s.consumed|);
    StandsFirst(PrintedPart(p), Printed(rest), x, s.at);
    BehindFields(s, |PrintedPart(p)|, PartMeaning(p, s.at, |s.consumed|), PartMarks(p, s.at));
    BehindFirst(s, parts);
    if PartKept(x, p, s.at, OutsideCalls) {
      PartKeptApart(x, p, s.at);
      NotJoined(p, rest, x, s.at + |PrintedPart(p)|);
      PartReached(x, scs, s, p, barred, stop);
      t := PartsDepart(x, scs, behind, rest, barred, stop);
      ReachesOn(x, scs, s, behind, t, stop);
    } else {
      t := PartDeparts(x, scs, s, p, barred, stop);
      BehindGrows(behind, |Printed(rest)|, Meaning(rest, behind.at, |behind.consumed|), Marks(rest, behind.at));
      DepartsOn(t.output, t.output, behind.output, BehindParts(s, parts).output);
    }
  }

  lemma PartDeparts(x: string, scs: bool, s: Scan, p: Part, barred: set<char>, stop: set<char>) returns (t: Scan)
    requires s.state.Normal? && PartPrintable(p, barred, scs) && stop <= barred * {'}'}
    requires PartKept(x, p, s.at, InsideCalls) && !PartKept(x, p, s.at, OutsideCalls)
    requires StandsAt(PrintedPart(p), x, s.at)
    ensures Reaches(x, scs, s, t, stop) && Departs(t.output, BehindPart(s, p).output)
    decreases p, 2
  {
    hide Reaches, Step, Behind, StandsAt, Printed, Meaning, Marks, Printable, Kept, Stays, Departs, ArgumentsKept;
    hide Enclosed, BodyText;
    if p.Group? {
      t := GroupDeparts(x, scs, s, p.inner, barred, stop);
    } else {
      assert p.Join?;
      JoinDeparts(x, scs, s, p.body);
      OneStepReaches(x, scs, s, stop);
      t := Step(x, scs, s);
    }
  }

  // ---- A whole statement ----

  /**
   A statement printed from a tree is translated into the meaning of the tree: characters, literals,
   comments and groups stand for themselves, markers get their numbers in order, and nested escapes
   are expanded from the inside out. It is so if and only if no parenthesis outside the function
   calls begins "() VALUES ()" in an INSERT statement; inside the calls only outer joins could hold
   such a run.
   */
  lemma TreeIsTranslated(parts: seq<Part>, scs: bool)
    requires Printable(parts, {}, scs) && Kept(Printed(parts), parts, 0, InsideCalls)
    ensures var s, kept := Scanned(Printed(parts), scs), Kept(Printed(parts), parts, 0, OutsideCalls);
            && (s.output == Meaning(parts, 0, 0) <==> kept)
            && (kept ==> s.consumed == Marks(parts, 0) && s.state.Normal?)
  {
    hide ScanFrom, Printed, Meaning, Marks, WithInputs, Printable, Kept, Reaches, Departs;
    var x, start := Printed(parts), Started();
    assert x[0..|x|] == x;
    var none: seq<Item>, nothing: seq<nat> := [], [];
    assert none + Meaning(parts, 0, 0) == Meaning(parts, 0, 0) && nothing + Marks(parts, 0) == Marks(parts, 0);
    var behind := BehindParts(start, parts);
    if Kept(x, parts, 0, OutsideCalls) {
      KeptApart(x, parts, 0);
      PartsReached(x, scs, start, parts, {}, {});
      ScanReaches(x, scs, start, behind, {});
      ScanEnds(x, scs, behind);
    } else {
      var t := PartsDepart(x, scs, start, parts, {}, {});
      ReachesInside(x, scs, start, t, {});
      ScanReaches(x, scs, start, t, {});
      ScanKeeps(x, scs, t);
      DepartsOn(t.output, ScanFrom(x, scs, t).output, behind.output, behind.output);
      DepartsDiffer(ScanFrom(x, scs, t).output, behind.output);
    }
  }

  lemma DepartsDiffer(a: seq<Item>, b: seq<Item>)
    requires Departs(a, b)
    ensures a != b
  {
  }

  /** Every tree whose text holds no such run is translated, and so is every tree that is no INSERT. */
  lemma TranslatedWithoutRuns(parts: seq<Part>, scs: bool)
    requires Printable(parts, {}, scs) && forall k :: Stays(Printed(parts), k)
    ensures var s := Scanned(Printed(parts), scs);
            s.output == Meaning(parts, 0, 0) && s.consumed == Marks(parts, 0) && s.state.Normal?
  {
    hide Scanned, Printed, Meaning, Marks, Printable, Kept, Stays;
    AllStay(Printed(parts), parts, 0, InsideCalls);
    AllStay(Printed(parts), parts, 0, OutsideCalls);
    TreeIsTranslated(parts, scs);
  }

  // ---- Examples ----

  lemma WrappedCall(argument: seq<Item>)
    ensures FunctionText("ucase", [argument]) == Texts("upper(") + argument + Texts(")")
    ensures FunctionText("lcase", [argument]) == Texts("lower(") + argument + Texts(")")
  {
    hide FunctionText, Texts;
    assert MAPPED[5] == "LCASE" && MAPPED[6] == "UCASE";
    assert Named("lcase", 5) && Named("ucase", 6);
    RenamedText("lcase", 5, [argument]);
    RenamedText("ucase", 6, [argument]);
    assert NewName(5) + "(" == "lower(" && NewName(6) + "(" == "upper(";
  }

  /** "{fn ucase({fn lcase(?)})}" stands for "upper(lower($1))". */
  lemma NestedExample()
    ensures var inner := Fn("lcase", [Argument([Mark])]);
            var outer := Fn("ucase", [Argument([inner])]);
            && PrintedPart(outer) == "{fn ucase({fn lcase(?)})}"
            && PartMeaning(outer, 0, 0) == Texts("upper(lower(") + [Marker(1, 20)] + Texts("))")
  {
    hide FunctionText, Texts, PartMeaning, PrintedPart, PartHasContent;
    var inner, marker := Fn("lcase", [Argument([Mark])]), [Marker(1, 20)];
    MarkMeaning(20, 0);
    OneArgumentCall("lcase", Mark, 10, 0);
    OneArgumentCall("ucase", inner, 0, 0);
    WrappedCall(marker);
    WrappedCall(Texts("lower(") + marker + Texts(")"));
    WrappedTwice(marker);
    ExampleText();
  }

  lemma MarkMeaning(i: nat, n: nat)
    ensures PrintedPart(Mark) == "?" && PartMeaning(Mark, i, n) == [Marker(n + 1, i)] && PartHasContent(Mark)
    ensures forall name, list :: PartHasContent(Fn(name, list))
  {
  }

  lemma ExampleText()
    ensures "{fn " + "ucase" + "(" + ("{fn " + "lcase" + "(" + "?" + ")}") + ")}" == "{fn ucase({fn lcase(?)})}"
  {
  }

  lemma WrappedTwice(items: seq<Item>)
    ensures Texts("upper(") + (Texts("lower(") + items + Texts(")")) + Texts(")")
            == Texts("upper(lower(") + items + Texts("))")
  {
    hide Texts;
    TextsJoined("upper(", "lower(");
    TextsJoined(")", ")");
    assert "upper(" + "lower(" == "upper(lower(" && ")" + ")" == "))";
    assert Texts("upper(") + (Texts("lower(") + items + Texts(")")) + Texts(")")
        == (Texts("upper(") + Texts("lower(")) + items + (Texts(")") + Texts(")"));
  }

  lemma OnePart(p: Part, i: nat, n: nat)
    ensures Printed([p]) == PrintedPart(p) && Marks([p], i) == PartMarks(p, i)
    ensures Meaning([p], i, n) == PartMeaning(p, i, n)
    ensures HasContent([p]) == PartHasContent(p)
  {
    hide PrintedPart, PartMarks, PartMeaning, PartHasContent;
    assert [p][1..] == [];
  }

  lemma OneArgumentCall(name: string, p: Part, i: nat, n: nat)
    requires PartHasContent(p)
    ensures var call := Fn(name, [Argument([p])]);
            && PrintedPart(call) == "{fn " + name + "(" + PrintedPart(p) + ")}"
            && PartMeaning(call, i, n) == FunctionText(name, [PartMeaning(p, i + |name| + 5, n)])
  {
    hide FunctionText;
    OnePart(p, i + |name| + 5, n);
    OneArgument([Argument([p])], i + |name| + 5, n);
    hide PrintedArguments, Printed, Meaning, ArgumentMeanings, HasContent, PartHasContent;
    FnUnfold(Fn(name, [Argument([p])]), i, n);
  }

  // ---- An INSERT that is rewritten ----

  function Plains(text: string): seq<Part> {
    if text == "" then [] else [Plain(text[0])] + Plains(text[1..])
  }

  function Front(): string { "insert into t " }

  function Middle(): string { " values " }

  // The tree of "insert into t () values ()".
  function EmptyInsert(): seq<Part> {
    Plains(Front()) + ([Group([])] + (Plains(Middle()) + [Group([])]))
  }

  function EmptyInsertText(): string { "insert into t () values ()" }

  predicate Letters(text: string) {
    forall c <- text :: c == ' ' || 'a' <= c <= 'z'
  }

  // Letters and spaces in front of other parts.
  lemma {:induction false} PlainsInFront(text: string, rest: seq<Part>, scs: bool, x: string, i: nat, checks: Checks)
    requires Letters(text)
    requires rest != [] ==> FirstCharacter(rest[0]) != QUOTE
    ensures Printed(Plains(text) + rest) == text + Printed(rest)
    ensures Printable(Plains(text) + rest, {}, scs) == Printable(rest, {}, scs)
    ensures Kept(x, Plains(text) + rest, i, checks) == Kept(x, rest, i + |text|, checks)
    decreases |text|
  {
    hide Printed, Printable, Kept, Plains;
    PlainsUnfold(text, rest);
    if text != "" {
      assert text[0] in text && (forall c <- text[1..] :: c in text);
      assert text[1..] != "" ==> text[1..][0] in text[1..];
      PlainsInFront(text[1..], rest, scs, x, i + 1, checks);
      PlainsUnfold(text[1..], rest);
      CharacterInFront(text[0], Plains(text[1..]) + rest, scs, x, i, checks);
      TextUnfold(text, Printed(rest));
    }
  }

  lemma PlainsUnfold(text: string, rest: seq<Part>)
    ensures text == "" ==> Plains(text) + rest == rest
    ensures text != "" ==> Plains(text) + rest == [Plain(text[0])] + (Plains(text[1..]) + rest)
    ensures text != "" ==> (Plains(text) + rest)[0] == Plain(text[0])
  {
    if text == "" {
      assert Plains(text) + rest == rest;
    }
  }

  lemma TextUnfold(text: string, rest: string)
    requires text != ""
    ensures [text[0]] + (text[1..] + rest) == text + rest
  {
    assert text == [text[0]] + text[1..];
  }

  lemma CharacterInFront(c: char, rest: seq<Part>, scs: bool, x: string, i: nat, checks: Checks)
    requires (c == ' ' || 'a' <= c <= 'z') && (rest != [] ==> FirstCharacter(rest[0]) != QUOTE)
    ensures Printed([Plain(c)] + rest) == [c] + Printed(rest)
    ensures Printable([Plain(c)] + rest, {}, scs) == Printable(rest, {}, scs)
    ensures Kept(x, [Plain(c)] + rest, i, checks) == Kept(x, rest, i + 1, checks)
  {
    assert ([Plain(c)] + rest)[1..] == rest;
  }

  lemma EmptyGroupInFront(rest: seq<Part>, scs: bool, x: string, i: nat, checks: Checks)
    ensures Printed([Group([])] + rest) == "()" + Printed(rest)
    ensures Printable([Group([])] + rest, {}, scs) == Printable(rest, {}, scs)
    ensures checks.InsideCalls? ==> Kept(x, [Group([])] + rest, i, checks) == Kept(x, rest, i + 2, checks)
    ensures checks.OutsideCalls? ==>
              Kept(x, [Group([])] + rest, i, checks) == (Stays(x, i) && Kept(x, rest, i + 2, checks))
  {
    hide Stays;
    assert ([Group([])] + rest)[1..] == rest;
    assert "(" + "" + ")" == "()";
  }

  lemma EmptyRun()
    ensures StatementIsInsert(EmptyInsertText()) && EmptyValuesAt(EmptyInsertText(), 14)
  {
    hide KeywordAt, BlankEnd, PadEnd;
    var x := EmptyInsertText();
    assert x[0..7] == "insert" + " " && x[17..24] == "values" + " ";
    KeywordStands(x, 0, "insert");
    KeywordStands(x, 17, "values");
    NotBlank(x, 0);
    NoPadding(x, 15);
    OneBlank(x, 16);
    OneBlank(x, 23);
    NoPadding(x, 25);
  }

  /** "insert into t () values ()" is such a statement: its output is not what its parts mean. */
  lemma EmptyInsertIsRewritten(scs: bool)
    ensures Printed(EmptyInsert()) == EmptyInsertText() && Printable(EmptyInsert(), {}, scs)
    ensures Scanned(EmptyInsertText(), scs).output != Meaning(EmptyInsert(), 0, 0)
  {
    hide Printed, Printable, Kept, Stays, Scanned, Meaning, Plains, Front, Middle, EmptyInsertText;
    var x := EmptyInsertText();
    EmptyRun();
    RunDoesNotStay(x);
    FrontLetters();
    MiddleLetters();
    EmptyInsertParts(x, Front(), Middle(), scs, InsideCalls);
    EmptyInsertParts(x, Front(), Middle(), scs, OutsideCalls);
    EmptyInsertIsText();
    TreeIsTranslated(EmptyInsert(), scs);
  }

  lemma FrontLetters()
    ensures Letters(Front()) && |Front()| == 14
  {
  }

  lemma MiddleLetters()
    ensures Letters(Middle())
  {
  }

  lemma EmptyInsertParts(x: string, front: string, middle: string, scs: bool, checks: Checks)
    requires Letters(front) && Letters(middle) && !Stays(x, |front|)
    ensures var parts := Plains(front) + ([Group([])] + (Plains(middle) + [Group([])]));
            && Printed(parts) == front + ("()" + (middle + ("()" + ""))) && Printable(parts, {}, scs)
            && (checks.InsideCalls? ==> Kept(x, parts, 0, checks))
            && (checks.OutsideCalls? ==> !Kept(x, parts, 0, checks))
  {
    hide Printed, Printable, Kept, Stays, Plains, Letters;
    var last, i := [Group([])], |front|;
    NoParts(scs, x, checks);
    assert last + [] == last;
    EmptyGroupInFront([], scs, x, i + 2 + |middle|, checks);
    PlainsInFront(middle, last, scs, x, i + 2, checks);
    var behind := Plains(middle) + last;
    EmptyGroupInFront(behind, scs, x, i, checks);
    PlainsInFront(front, last + behind, scs, x, 0, checks);
  }

  lemma EmptyInsertIsText()
    ensures Front() + ("()" + (Middle() + ("()" + ""))) == EmptyInsertText()
  {
  }

  lemma RunDoesNotStay(x: string)
    requires StatementIsInsert(x) && EmptyValuesAt(x, 14)
    ensures !Stays(x, 14)
  {
  }

  lemma NoParts(scs: bool, x: string, checks: Checks)
    ensures Printed([]) == "" && Printable([], {}, scs) && forall i :: Kept(x, [], i, checks)
  {
  }
}
