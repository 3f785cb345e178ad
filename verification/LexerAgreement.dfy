/**
 The scanner and the splitter side by side: both follow PostgreSQL's lexical structure, the one by
 what it has written, the other by its input.
 */
module LexerAgreement {
  import opened Ascii
  import opened EscapeModel
  import opened EscapeReading
  import opened ScannerModel
  import opened SqlLexer
  import opened StatementSplitter

  // The positions and states at which units begin when every decision is made by the input.
  function Trace(x: string, scs: bool, pairs: bool, i: nat, state: LexState): seq<(nat, LexState)>
    requires i <= |x|
    decreases |x| - i
  {
    if i == |x| then [(i, state)]
    else
      var u := NextUnit(x, scs, pairs, i, state);
      [(i, state)] + Trace(x, scs, pairs, u.end, u.state)
  }

  predicate SecondOfPair(x: string, visit: (nat, LexState)) {
    visit.1.Normal? && 0 < visit.0 && PairAt(x, visit.0 - 1)
  }

  // Taking "??" as one unit leaves the states and comment depths of the splitter as they are; the
  // splitter only stops inside the pair as well.
  lemma {:induction false} LexersAgree(x: string, scs: bool, i: nat, state: LexState)
    requires i <= |x|
    ensures forall visit <- Trace(x, scs, true, i, state) :: visit in Trace(x, scs, false, i, state)
    ensures forall visit <- Trace(x, scs, false, i, state) ::
              visit in Trace(x, scs, true, i, state) || SecondOfPair(x, visit)
    decreases |x| - i
  {
    hide LexUnit;
    if i < |x| {
      var u := NextUnit(x, scs, true, i, state);
      LexersAgree(x, scs, u.end, u.state);
      if state.Normal? && PairAt(x, i) {
        PlainUnit(x, scs, false, i);
        PlainUnit(x, scs, false, i + 1);
      }
    }
  }

  predicate QuoteAt(x: string, i: nat) {
    At(x, i, '$') && TagLength(x, i) > 0
  }

  // A marker directly before a dollar quote.
  predicate QuotedMarker(x: string, i: nat) {
    MarkerAt(x, i) && QuoteAt(x, i + 1)
  }

  // No marker that is met from `i` on stands directly before a dollar quote.
  predicate UnquotedMarkers(x: string, scs: bool, i: nat, state: LexState)
    requires i <= |x|
    decreases |x| - i
  {
    i == |x| ||
    var u := NextUnit(x, scs, true, i, state);
    !(state.Normal? && QuotedMarker(x, i)) && UnquotedMarkers(x, scs, u.end, u.state)
  }

  predicate EndsInMarker(output: seq<Item>) {
    output != [] && output[|output| - 1].Marker?
  }

  lemma OriginalTail(output: seq<Item>, x: string, i: nat)
    requires i <= |x| && Original(output) == x[..i]
    ensures EndsInMarker(output) ==> CanOpen(x, i) && !CanOpenAfter(output)
    ensures !EndsInMarker(output) ==> CanOpenAfter(output) == CanOpen(x, i)
  {
    if output != [] {
      var tail := match output[|output| - 1] case Text(c) => [c] case Question => "??" case Marker(_, _) => "?";
      assert x[i - 1] == Original(output)[i - 1] == tail[|tail| - 1];
    }
  }

  // One unit decided by the output is the unit decided by the input, unless a dollar quote follows
  // a marker: the output takes the '$' for a continuation of the number.
  lemma ScanUnitAgrees(output: seq<Item>, x: string, scs: bool, i: nat, state: LexState)
    requires i < |x| && Original(output) == x[..i] && (EndsInMarker(output) ==> state.Normal?)
    ensures ScanUnit(x, scs, i, state, CanOpenAfter(output)) == NextUnit(x, scs, true, i, state) <==>
            !(EndsInMarker(output) && QuoteAt(x, i))
    ensures EndsInMarker(output) && QuoteAt(x, i) ==>
              ScanUnit(x, scs, i, state, CanOpenAfter(output)).end == i + 1 < NextUnit(x, scs, true, i, state).end
  {
    hide TagLength, Original, CanOpenAfter;
    OriginalTail(output, x, i);
  }

  lemma UnitEndsInMarker(x: string, scs: bool, i: nat, r: Reading)
    requires i < |x|
    ensures EndsInMarker(ReadUnit(x, scs, i, r).items) <==> r.state.Normal? && MarkerAt(x, i)
    ensures r.state.Normal? && MarkerAt(x, i) ==>
              ReadUnit(x, scs, i, r).state.Normal? && UnitEnd(x, scs, i, r) == i + 1
  {
    hide TagLength, DollarUnit;
    var items := UnitItems(x, i, UnitEnd(x, scs, i, r), r.state, r.number + 1);
    assert items != [] && ReadUnit(x, scs, i, r).items[|r.items + items| - 1] == items[|items| - 1];
  }

  // The scanner that has reached `i` in step with the splitter stays in step with it exactly when
  // neither a marker just read nor one ahead stands before a dollar quote.
  lemma {:induction false} TracesAgree(x: string, scs: bool, i: nat, r: Reading)
    requires i <= |x| && Original(r.items) == x[..i] && (EndsInMarker(r.items) ==> r.state.Normal?)
    ensures ReadTrace(x, scs, i, r) == Trace(x, scs, true, i, r.state) <==>
            !(EndsInMarker(r.items) && QuoteAt(x, i)) && UnquotedMarkers(x, scs, i, r.state)
    decreases |x| - i
  {
    hide NextUnit, ReadUnit, UnitEnd, QuoteAt, Original, EndsInMarker;
    if i < |x| {
      var end, next := UnitEnd(x, scs, i, r), ReadUnit(x, scs, i, r);
      UnitAgrees(x, scs, i, r);
      ReadKeepsOriginal(x, scs, i, r);
      UnitEndsInMarker(x, scs, i, r);
      TracesUnfold(x, scs, i, r);
      TracesAgree(x, scs, end, next);
    } else {
      QuoteInside(x, i);
    }
  }

  lemma UnitAgrees(x: string, scs: bool, i: nat, r: Reading)
    requires i < |x| && Original(r.items) == x[..i] && (EndsInMarker(r.items) ==> r.state.Normal?)
    ensures var u := NextUnit(x, scs, true, i, r.state);
            if EndsInMarker(r.items) && QuoteAt(x, i) then UnitEnd(x, scs, i, r) != u.end
            else UnitEnd(x, scs, i, r) == u.end && ReadUnit(x, scs, i, r).state == u.state
  {
    hide NextUnit, ScanUnit, UnitItems, QuoteAt, Original, CanOpenAfter;
    ScanUnitAgrees(r.items, x, scs, i, r.state);
  }

  lemma TracesUnfold(x: string, scs: bool, i: nat, r: Reading)
    requires i < |x|
    ensures var u, end, next := NextUnit(x, scs, true, i, r.state), UnitEnd(x, scs, i, r), ReadUnit(x, scs, i, r);
            ReadTrace(x, scs, i, r) == Trace(x, scs, true, i, r.state) <==>
            end == u.end && ReadTrace(x, scs, end, next) == Trace(x, scs, true, u.end, u.state)
  {
    hide NextUnit, ReadUnit, UnitEnd;
    var u, end, next := NextUnit(x, scs, true, i, r.state), UnitEnd(x, scs, i, r), ReadUnit(x, scs, i, r);
    assert ReadTrace(x, scs, end, next)[0].0 == end && Trace(x, scs, true, u.end, u.state)[0].0 == u.end;
    TailsEqual((i, r.state), ReadTrace(x, scs, end, next), Trace(x, scs, true, u.end, u.state));
  }

  lemma QuoteInside(x: string, i: nat)
    ensures QuoteAt(x, i) ==> i < |x|
  {
  }

  lemma TailsEqual<T>(head: T, a: seq<T>, b: seq<T>)
    ensures [head] + a == [head] + b <==> a == b
  {
    if [head] + a == [head] + b {
      assert ([head] + a)[1..] == a && ([head] + b)[1..] == b;
    }
  }

  /**
   A pass over any text that decides about dollar quotes by what it has written visits the
   positions, states and comment depths that the input alone decides if and only if no marker
   stands directly before a dollar quote.
   */
  lemma PassAgreesExactly(x: string, scs: bool)
    ensures ReadTrace(x, scs, 0, StartReading([], 0)) == Trace(x, scs, true, 0, Normal) <==>
            UnquotedMarkers(x, scs, 0, Normal)
  {
    TracesAgree(x, scs, 0, StartReading([], 0));
  }

  // Where nothing is rewritten the scan is that pass.
  lemma {:induction false} UntouchedIsRead(x: string, scs: bool, s: Scan, r: Reading)
    requires s.at <= |x| && InStep(s, r) && Untouched(x, scs, s.at, r)
    ensures InStep(ScanFrom(x, scs, s), ReadTo(x, scs, s.at, |x|, r).1)
    ensures ScanTrace(x, scs, s) == ReadTrace(x, scs, s.at, r)
    decreases |x| - s.at
  {
    hide Step, UnitEnd, ReadUnit, Rewrites;
    if s.at < |x| {
      StepReads(x, scs, s, r);
      UntouchedIsRead(x, scs, Step(x, scs, s), ReadUnit(x, scs, s.at, r));
    }
  }

  // Parameters are inputs unless a call says otherwise, and without one there are no arguments.
  ghost predicate NoCall(call: Call) {
    && !call.isCall && call.returnValues == 0 && call.name == "" && call.arguments == []
    && forall k :: 0 <= k < |call.roles| ==> call.roles[k].Input?
  }

  lemma {:induction false} UntouchedIsNoCall(x: string, scs: bool, s: Scan, r: Reading)
    requires s.at <= |x| && InStep(s, r) && Untouched(x, scs, s.at, r) && NoCall(s.call)
    ensures NoCall(ScanFrom(x, scs, s).call)
    decreases |x| - s.at
  {
    hide Step, UnitEnd, ReadUnit, Rewrites, NoCall;
    if s.at < |x| {
      StepReads(x, scs, s, r);
      PlainIsNoCall(x, scs, s);
      UntouchedIsNoCall(x, scs, Step(x, scs, s), ReadUnit(x, scs, s.at, r));
    }
  }

  lemma PlainIsNoCall(x: string, scs: bool, s: Scan)
    requires s.at < |x| && NoCall(s.call)
    ensures NoCall(PlainStep(x, scs, s).call)
  {
    hide ScanUnit, UnitItems;
  }

  lemma {:induction false} ReadKeepsAll(x: string, scs: bool, i: nat, r: Reading)
    requires i <= |x| && Original(r.items) == x[..i]
    ensures Original(ReadTo(x, scs, i, |x|, r).1.items) == x
    decreases |x| - i
  {
    hide UnitEnd, ReadUnit, Original;
    if i < |x| {
      ReadKeepsOriginal(x, scs, i, r);
      ReadKeepsAll(x, scs, UnitEnd(x, scs, i, r), ReadUnit(x, scs, i, r));
    } else {
      assert x[..i] == x;
    }
  }

  /**
   A text in which the scanner meets nothing to rewrite comes through unchanged but for the numbers
   of its markers and is no call, and the scanner visits the states that the input decides if and only
   if no marker stands directly before a dollar quote.
   */
  lemma ScannerAgreesExactly(x: string, scs: bool)
    requires Untouched(x, scs, 0, StartReading([], 0))
    ensures Original(Scanned(x, scs).output) == x
    ensures ScanTrace(x, scs, Started()) == Trace(x, scs, true, 0, Normal) <==> UnquotedMarkers(x, scs, 0, Normal)
    ensures NoCall(Scanned(x, scs).call)
  {
    hide ScanFrom, ScanTrace, ReadTrace, Trace, ReadTo, Untouched, UnquotedMarkers;
    UntouchedIsNoCall(x, scs, Started(), StartReading([], 0));
    UntouchedIsRead(x, scs, Started(), StartReading([], 0));
    ReadKeepsAll(x, scs, 0, StartReading([], 0));
    PassAgreesExactly(x, scs);
  }

  lemma MarkRead(x: string, scs: bool, i: nat, r: Reading)
    requires MarkerAt(x, i) && r.state.Normal?
    ensures UnitEnd(x, scs, i, r) == i + 1
    ensures ReadUnit(x, scs, i, r) == r.(items := r.items + [Marker(r.number + 1, i)], number := r.number + 1)
  {
    hide TagLength, DollarUnit, CanOpenAfter;
  }

  // A '$' that opens nothing.
  lemma DollarRead(x: string, scs: bool, i: nat, r: Reading)
    requires At(x, i, '$') && r.state.Normal? && !(CanOpenAfter(r.items) && TagLength(x, i) > 0)
    ensures UnitEnd(x, scs, i, r) == i + 1
    ensures ReadUnit(x, scs, i, r) == r.(items := r.items + [Text('$')])
  {
    hide TagLength, DollarUnit, CanOpenAfter;
    assert Texts(x[i..i + 1]) == [Text('$')];
  }

  const QUOTED_MARKER := "?$$?$$"

  lemma MarkReadOn(x: string, i: nat, r: Reading)
    requires MarkerAt(x, i) && r.state.Normal?
    ensures var next := r.(items := r.items + [Marker(r.number + 1, i)], number := r.number + 1);
            && ReadTo(x, true, i, |x|, r) == ReadTo(x, true, i + 1, |x|, next)
            && Untouched(x, true, i, r) == Untouched(x, true, i + 1, next)
  {
    hide ReadUnit, UnitEnd, Rewrites, KeywordAt, EscapeAt, EmptyValuesAt, StatementIsInsert;
    RewritesBy(x, i);
    MarkRead(x, true, i, r);
  }

  lemma DollarReadOn(x: string, i: nat, r: Reading)
    requires At(x, i, '$') && r.state.Normal? && !(CanOpenAfter(r.items) && TagLength(x, i) > 0)
    ensures var next := r.(items := r.items + [Text('$')]);
            && ReadTo(x, true, i, |x|, r) == ReadTo(x, true, i + 1, |x|, next)
            && Untouched(x, true, i, r) == Untouched(x, true, i + 1, next)
  {
    hide ReadUnit, UnitEnd, TagLength, CanOpenAfter, Rewrites, KeywordAt, EscapeAt, EmptyValuesAt, StatementIsInsert;
    RewritesBy(x, i);
    DollarRead(x, true, i, r);
  }

  // The scanner's own pass: two markers and four dollar signs.
  lemma QuotedMarkerRead()
    ensures ReadTo(QUOTED_MARKER, true, 0, 6, StartReading([], 0)).1.number == 2
    ensures Untouched(QUOTED_MARKER, true, 0, StartReading([], 0))
  {
    hide ReadTo, Untouched;
    var x, r := QUOTED_MARKER, StartReading([], 0);
    var r1 := r.(items := r.items + [Marker(1, 0)], number := 1);
    MarkReadOn(x, 0, r);
    var r2 := r1.(items := r1.items + [Text('$')]);
    DollarReadOn(x, 1, r1);
    var r3 := r2.(items := r2.items + [Text('$')]);
    DollarReadOn(x, 2, r2);
    var r4 := r3.(items := r3.items + [Marker(2, 3)], number := 2);
    MarkReadOn(x, 3, r3);
    var r5 := r4.(items := r4.items + [Text('$')]);
    DollarReadOn(x, 4, r4);
    DollarReadOn(x, 5, r5);
    NothingToRead(x, r5.(items := r5.items + [Text('$')]));
  }

  lemma NothingToRead(x: string, r: Reading)
    ensures ReadTo(x, true, |x|, |x|, r) == (|x|, r) && Untouched(x, true, |x|, r)
  {
  }

  // The splitter's lexer: a marker and a quoted body.
  lemma QuotedMarkerLexed()
    ensures Markers(QUOTED_MARKER, true, 0, Normal) == 1 && !UnquotedMarkers(QUOTED_MARKER, true, 0, Normal)
  {
    hide NextUnit, QuoteAt;
    var x := QUOTED_MARKER;
    PlainUnit(x, true, true, 0);
    QuotedBodyLexed();
    assert MarkerAt(x, 0) && !MarkerAt(x, 1) && |x| == 6;
    hide MarkerAt;
    assert Markers(x, true, 6, Normal) == 0 && Markers(x, true, 1, Normal) == 0;
  }

  lemma QuotedBodyLexed()
    ensures QuoteAt(QUOTED_MARKER, 1) && NextUnit(QUOTED_MARKER, true, true, 1, Normal) == Unit(6, Normal, false)
  {
    hide CloseTag, TagLength;
    QuotedMarkerTag();
    QuotedMarkerClosed();
    assert QUOTED_MARKER[1..3] == "$$";
    assert DollarUnit(QUOTED_MARKER, 1) == Unit(6, Normal, false);
  }

  lemma QuotedMarkerTag()
    ensures TagLength(QUOTED_MARKER, 1) == 2
  {
  }

  lemma QuotedMarkerClosed()
    ensures CloseTag(QUOTED_MARKER, 3, "$$") == Found(6)
  {
    var x := QUOTED_MARKER;
    assert x[3..5] == "?$" && x[3..5][0] != "$$"[0] && x[4..6] == "$$";
    assert CloseTag(x, 4, "$$") == Found(6);
  }

  /** The scanner consumes two markers in "?$$?$$"; the splitter's lexer sees one and a quoted body. */
  lemma DollarAfterMarkDisagrees()
    ensures var x := QUOTED_MARKER;
            && |Scanned(x, true).consumed| == 2 && Markers(x, true, 0, Normal) == 1
            && ScanTrace(x, true, Started()) != Trace(x, true, true, 0, Normal)
  {
    hide ReadTo, ReadTrace, Trace, Markers, Untouched, UnquotedMarkers, ScanFrom, ScanTrace;
    QuotedMarkerRead();
    UntouchedAt(QUOTED_MARKER);
    assert |QUOTED_MARKER| == 6;
    QuotedMarkerLexed();
    ScannerAgreesExactly(QUOTED_MARKER, true);
  }

  lemma UntouchedAt(x: string)
    requires Untouched(x, true, 0, StartReading([], 0))
    ensures |Scanned(x, true).consumed| == ReadTo(x, true, 0, |x|, StartReading([], 0)).1.number
  {
    hide ScanFrom, ReadTo, Untouched;
    UntouchedIsRead(x, true, Started(), StartReading([], 0));
  }

  // ---- Text that the scanner only numbers ----

  // From `i` on the scanner meets nothing to rewrite and no marker directly before a dollar quote.
  predicate Ordinary(x: string, scs: bool, i: nat, state: LexState)
    requires i <= |x|
    decreases |x| - i
  {
    i == |x| ||
    var u := NextUnit(x, scs, true, i, state);
    (state.Normal? ==> !Rewritable(x, i) && !QuotedMarker(x, i)) && Ordinary(x, scs, u.end, u.state)
  }

  predicate PlainText(x: string, scs: bool) {
    Ordinary(x, scs, 0, Normal)
  }

  lemma {:induction false} OrdinaryIsRead(x: string, scs: bool, i: nat, r: Reading)
    requires i <= |x| && Original(r.items) == x[..i] && (EndsInMarker(r.items) ==> r.state.Normal?)
    requires Ordinary(x, scs, i, r.state) && !(EndsInMarker(r.items) && QuoteAt(x, i))
    ensures Untouched(x, scs, i, r) && UnquotedMarkers(x, scs, i, r.state)
    ensures ReadTo(x, scs, i, |x|, r).1.number == r.number + Markers(x, scs, i, r.state)
    decreases |x| - i
  {
    hide NextUnit, ScanUnit, UnitItems, QuoteAt, Original, CanOpenAfter, Rewritable;
    if i < |x| {
      ScanUnitAgrees(r.items, x, scs, i, r.state);
      StepKeepsOriginal(x, scs, r.items, i, r.state, r.number + 1);
      UnitEndsInMarker(x, scs, i, r);
      OrdinaryIsRead(x, scs, UnitEnd(x, scs, i, r), ReadUnit(x, scs, i, r));
    }
  }

  // ---- Splitting plain text ----

  lemma BlankEndPrefix(y: string, x: string, i: nat)
    requires y <= x && i <= |y| && BlankEnd(y, i) < |y|
    ensures BlankEnd(x, i) == BlankEnd(y, i)
    decreases |y| - i
  {
    if Blank(y[i]) {
      BlankEndPrefix(y, x, i + 1);
    }
  }

  lemma PadEndPrefix(y: string, x: string, i: nat)
    requires y <= x && i <= |y| && PadEnd(y, i) < |y|
    ensures PadEnd(x, i) == PadEnd(y, i)
    decreases |y| - i
  {
    if y[i] == ' ' || y[i] == '\t' {
      PadEndPrefix(y, x, i + 1);
    }
  }

  lemma KeywordPrefix(y: string, x: string, i: nat, keyword: string)
    requires Separated(y, x) && KeywordAt(y, i, keyword)
    ensures KeywordAt(x, i, keyword)
  {
    hide SameIgnoringCase;
    assert y[i..i + |keyword|] == x[i..i + |keyword|];
  }

  lemma EmptyValuesPrefix(y: string, x: string, i: nat)
    requires Separated(y, x) && EmptyValuesAt(y, i)
    ensures EmptyValuesAt(x, i)
  {
    hide KeywordAt;
    PadEndPrefix(y, x, i + 1);
    var columns := PadEnd(y, i + 1);
    var keyword := BlankEnd(y, columns + 1);
    KeywordFits(y, keyword, "values");
    BlankEndPrefix(y, x, columns + 1);
    KeywordPrefix(y, x, keyword, "values");
    var values := BlankEnd(y, keyword + 6);
    BlankEndPrefix(y, x, keyword + 6);
    PadEndPrefix(y, x, values + 1);
  }

  lemma EscapePrefix(y: string, x: string, i: nat)
    requires Separated(y, x) && !EscapeAt(y, i).NoEscape?
    ensures i < |y| && !EscapeAt(x, i).NoEscape?
  {
    hide SameIgnoringCase, KeywordAt;
    forall keyword | keyword in ["fn", "ts", "d", "t", "oj", "escape", "call"] && KeywordAt(y, i, keyword)
      ensures KeywordAt(x, i, keyword) && i < |y|
    {
      KeywordPrefix(y, x, i, keyword);
      KeywordFits(y, i, keyword);
    }
    assert forall k <- ["fn", "ts", "d", "t", "oj", "escape", "call"] :: KeywordAt(y, i, k) ==> KeywordAt(x, i, k);
  }

  lemma RewritablePrefix(y: string, x: string, i: nat)
    requires Separated(y, x) && i < |y| && Rewritable(y, i)
    ensures Rewritable(x, i)
  {
    hide EscapeAt, KeywordAt, EmptyValuesAt;
    if EmptyValuesAt(y, i) {
      EmptyValuesPrefix(y, x, i);
    } else if KeywordAt(y, i, "@@identity") {
      KeywordPrefix(y, x, i, "@@identity");
    } else {
      EscapePrefix(y, x, PadEnd(y, i + 1));
      PadEndPrefix(y, x, i + 1);
    }
  }

  lemma BlankEndShift(x: string, s: nat, i: nat)
    requires s + i <= |x|
    ensures BlankEnd(x, s + i) == s + BlankEnd(x[s..], i)
    decreases |x| - i
  {
    if s + i < |x| && Blank(x[s + i]) {
      BlankEndShift(x, s, i + 1);
    }
  }

  lemma PadEndShift(x: string, s: nat, i: nat)
    requires s + i <= |x|
    ensures PadEnd(x, s + i) == s + PadEnd(x[s..], i)
    decreases |x| - i
  {
    if s + i < |x| && (x[s + i] == ' ' || x[s + i] == '\t') {
      PadEndShift(x, s, i + 1);
    }
  }

  lemma KeywordShift(x: string, s: nat, i: nat, keyword: string)
    requires s + i <= |x|
    ensures KeywordAt(x, s + i, keyword) == KeywordAt(x[s..], i, keyword)
  {
    hide SameIgnoringCase;
    if s + i + |keyword| <= |x| {
      assert x[s..][i..i + |keyword|] == x[s + i..s + i + |keyword|];
    }
  }

  // The part of the run from the keyword on.
  predicate ValuesAt(x: string, keyword: nat)
    requires keyword <= |x|
  {
    KeywordFits(x, keyword, "values");
    KeywordAt(x, keyword, "values") &&
    var values := BlankEnd(x, keyword + 6);
    At(x, values, '(') && At(x, PadEnd(x, values + 1), ')')
  }

  lemma ValuesShift(x: string, s: nat, keyword: nat)
    requires s + keyword <= |x|
    ensures ValuesAt(x, s + keyword) == ValuesAt(x[s..], keyword)
  {
    hide KeywordAt;
    KeywordShift(x, s, keyword, "values");
    if KeywordAt(x[s..], keyword, "values") {
      KeywordFits(x[s..], keyword, "values");
      BlankEndShift(x, s, keyword + 6);
      var values := BlankEnd(x[s..], keyword + 6);
      if At(x, s + values, '(') {
        PadEndShift(x, s, values + 1);
      }
    }
  }

  lemma EmptyValuesParts(x: string, i: nat)
    requires At(x, i, '(')
    ensures EmptyValuesAt(x, i) <==>
            At(x, PadEnd(x, i + 1), ')') && ValuesAt(x, BlankEnd(x, PadEnd(x, i + 1) + 1))
  {
    hide KeywordAt, BlankEnd, PadEnd;
  }

  lemma EmptyValuesShift(x: string, s: nat, i: nat)
    requires At(x, s + i, '(')
    ensures EmptyValuesAt(x, s + i) == EmptyValuesAt(x[s..], i)
  {
    hide EmptyValuesAt, ValuesAt, PadEnd, BlankEnd;
    EmptyValuesParts(x, s + i);
    EmptyValuesParts(x[s..], i);
    PadEndShift(x, s, i + 1);
    var columns := PadEnd(x[s..], i + 1);
    if At(x, s + columns, ')') {
      BlankEndShift(x, s, columns + 1);
      ValuesShift(x, s, BlankEnd(x[s..], columns + 1));
    }
  }

  lemma EscapeShift(x: string, s: nat, i: nat)
    requires s + i <= |x|
    ensures EscapeAt(x, s + i) == EscapeAt(x[s..], i)
  {
    hide KeywordAt;
    KeywordShift(x, s, i, "fn");
    KeywordShift(x, s, i, "ts");
    KeywordShift(x, s, i, "d");
    KeywordShift(x, s, i, "t");
    KeywordShift(x, s, i, "oj");
    KeywordShift(x, s, i, "escape");
    KeywordShift(x, s, i, "call");
  }

  lemma RewritableShift(x: string, s: nat, i: nat)
    requires s + i < |x|
    ensures Rewritable(x, s + i) == Rewritable(x[s..], i)
  {
    hide EscapeAt, KeywordAt, EmptyValuesEnd;
    KeywordShift(x, s, i, "@@identity");
    PadEndShift(x, s, i + 1);
    EscapeShift(x, s, PadEnd(x[s..], i + 1));
    if x[s + i] == '(' {
      EmptyValuesShift(x, s, i);
    }
  }

  lemma KeywordFits(x: string, i: nat, keyword: string)
    ensures KeywordAt(x, i, keyword) ==> i + |keyword| <= |x|
  {
  }

  lemma QuotedMarkerShift(x: string, s: nat, i: nat)
    requires s + i < |x|
    ensures QuotedMarker(x, s + i) == QuotedMarker(x[s..], i)
  {
    hide TagLength;
    if At(x, s + i + 1, '$') {
      TagLengthShift(x, s, i + 1);
    }
  }

  lemma QuotedMarkerPrefix(y: string, x: string, i: nat)
    requires y <= x && i < |y| && QuotedMarker(y, i)
    ensures QuotedMarker(x, i)
  {
    hide TagLength;
    TagLengthPrefix(y, x, i + 1);
  }

  lemma {:induction false} OrdinaryShift(x: string, scs: bool, s: nat, i: nat, state: LexState)
    requires s + i <= |x| && CanOpen(x, s)
    ensures Ordinary(x, scs, s + i, state) == Ordinary(x[s..], scs, i, state)
    decreases |x| - i
  {
    hide NextUnit, Rewritable, QuotedMarker;
    if s + i < |x| {
      NextUnitShift(x, scs, true, s, i, state);
      RewritableShift(x, s, i);
      QuotedMarkerShift(x, s, i);
      var u := NextUnit(x[s..], scs, true, i, state);
      OrdinaryShift(x, scs, s, u.end, u.state);
    }
  }

  lemma OrdinaryHere(y: string, x: string, i: nat, state: LexState)
    requires (y == x || Separated(y, x)) && i < |y| && (state.Normal? ==> !Rewritable(x, i) && !QuotedMarker(x, i))
    ensures state.Normal? ==> !Rewritable(y, i) && !QuotedMarker(y, i)
  {
    hide Rewritable, QuotedMarker;
    if state.Normal? && Rewritable(y, i) && y != x {
      RewritablePrefix(y, x, i);
    }
    if state.Normal? && QuotedMarker(y, i) {
      QuotedMarkerPrefix(y, x, i);
    }
  }

  lemma {:induction false} OrdinarySplitsAtCut(x: string, scs: bool, i: nat, state: LexState)
    requires i <= |x| && CutAt(x, scs, true, i, state) < |x| && Ordinary(x, scs, i, state)
    ensures var cut := CutAt(x, scs, true, i, state);
            Ordinary(x[..cut], scs, i, state) && Ordinary(x, scs, cut + 1, Normal)
    decreases |x| - i
  {
    hide NextUnit, Rewritable, QuotedMarker;
    var y := x[..CutAt(x, scs, true, i, state)];
    if i < |y| {
      var u := NextUnit(x, scs, true, i, state);
      NextUnitPrefix(y, x, scs, true, i, state);
      OrdinaryHere(y, x, i, state);
      OrdinarySplitsAtCut(x, scs, u.end, u.state);
    } else {
      PlainUnit(x, scs, true, i);
    }
  }

  lemma {:induction false} OrdinaryTrimmed(y: string, x: string, scs: bool, i: nat, state: LexState)
    requires BlankAfter(y, x) && i <= |y| && Ordinary(x, scs, i, state)
    ensures Ordinary(y, scs, i, state)
    decreases |y| - i
  {
    hide NextUnit, Rewritable, QuotedMarker;
    if i < |y| {
      OrdinaryHere(y, x, i, state);
      var u := NextUnit(x, scs, true, i, state);
      if u.end <= |y| {
        NextUnitPrefix(y, x, scs, true, i, state);
        OrdinaryTrimmed(y, x, scs, u.end, u.state);
      } else {
        NextUnitOvershoot(y, x, scs, true, i, state);
      }
    }
  }

  lemma {:induction false} TrimStaysPlain(s: string, scs: bool)
    requires PlainText(s, scs)
    ensures PlainText(Trim(s), scs)
    decreases |s|
  {
    hide NextUnit, TrimRight, Rewritable, QuotedMarker;
    if s != [] && Blank(s[0]) {
      PlainUnit(s, scs, true, 0);
      OrdinaryShift(s, scs, 1, 0, Normal);
      TrimStaysPlain(s[1..], scs);
    } else {
      TrimRightBlank(s);
      OrdinaryTrimmed(Trim(s), s, scs, 0, Normal);
    }
  }

  lemma {:induction false} PiecesStayPlain(x: string, scs: bool, start: nat)
    requires start <= |x| && CanOpen(x, start) && Ordinary(x, scs, start, Normal)
    ensures forall p <- Pieces(x, scs, start) :: PlainText(p, scs)
    decreases |x| - start
  {
    hide CutAt, Pieces, Ordinary;
    var cut := CutAt(x, scs, false, start, Normal);
    PiecesAt(x, scs, start, cut);
    OrdinaryShift(x, scs, start, 0, Normal);
    assert x[start..] == x[start..|x|];
    if cut < |x| {
      CutAtShift(x, scs, false, start, 0, Normal);
      PairsKeepCut(x, scs, start, Normal);
      PairsKeepCut(x[start..], scs, 0, Normal);
      OrdinarySplitsAtCut(x[start..], scs, 0, Normal);
      assert x[start..][..cut - start] == x[start..cut];
      OrdinarySplitsAtCut(x, scs, start, Normal);
      PiecesStayPlain(x, scs, cut + 1);
    }
  }

  lemma {:induction false} FragmentsStayPlain(pieces: seq<string>, scs: bool)
    requires forall p <- pieces :: PlainText(p, scs)
    ensures forall f <- Fragments(pieces) :: PlainText(f, scs)
  {
    hide Trim, PlainText;
    if pieces != [] {
      TrimStaysPlain(pieces[0], scs);
      FragmentsStayPlain(pieces[1..], scs);
    }
  }

  // The number of markers that the scanner consumes in the texts, each scanned alone.
  function TotalConsumed(texts: seq<string>, scs: bool): nat {
    if texts == [] then 0 else |Scanned(texts[0], scs).consumed| + TotalConsumed(texts[1..], scs)
  }

  lemma {:induction false} ConsumedAreMarkers(texts: seq<string>, scs: bool)
    requires forall t <- texts :: PlainText(t, scs)
    ensures TotalConsumed(texts, scs) == TotalMarkers(texts, scs)
  {
    hide PlainText, Scanned, Markers;
    if texts != [] {
      PlainIsScanned(texts[0], scs);
      ConsumedAreMarkers(texts[1..], scs);
    }
  }

  /** Plain text comes through but for its numbers, in the splitter's states, with all its markers counted. */
  lemma PlainIsScanned(x: string, scs: bool)
    requires PlainText(x, scs)
    ensures Original(Scanned(x, scs).output) == x && |Scanned(x, scs).consumed| == Markers(x, scs, 0, Normal)
    ensures ScanTrace(x, scs, Started()) == Trace(x, scs, true, 0, Normal)
  {
    hide ScanFrom, ScanTrace, Trace, ReadTo, Untouched, UnquotedMarkers, Ordinary, Markers;
    OrdinaryIsRead(x, scs, 0, StartReading([], 0));
    ScannerAgreesExactly(x, scs);
    UntouchedIsRead(x, scs, Started(), StartReading([], 0));
  }

  /**
   For plain text, the parameters that the scanner counts in the fragments add up to those it
   counts in the whole text.
   */
  lemma FragmentCountsAddUp(x: string, scs: bool)
    requires PlainText(x, scs)
    ensures forall f <- Split(x, scs) :: PlainText(f, scs)
    ensures TotalConsumed(Split(x, scs), scs) == |Scanned(x, scs).consumed|
  {
    hide Scanned, PlainText, TotalConsumed;
    SplitKeepsMarkers(x, scs);
    PlainPieces(x, scs);
    FragmentsStayPlain(Pieces(x, scs, 0), scs);
    ConsumedAreMarkers(Split(x, scs), scs);
    PlainIsScanned(x, scs);
  }

  lemma PlainPieces(x: string, scs: bool)
    requires PlainText(x, scs)
    ensures forall p <- Pieces(x, scs, 0) :: PlainText(p, scs)
  {
    PiecesStayPlain(x, scs, 0);
  }
}
