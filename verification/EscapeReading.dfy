/**
 Escapes whose text holds nothing to rewrite: the body of an outer join is that text, read on, and
 the arguments of a function are that text, cut at its top-level commas.
 */
module EscapeReading {
  import opened EscapeModel
  import opened Options
  import opened ScannerModel
  import opened SqlLexer

  // The reading and the scan have come to the same.
  ghost predicate InStep(s: Scan, r: Reading) {
    r.items == s.output && r.state == s.state && r.number == |s.consumed|
  }

  // A step that rewrites nothing reads one unit.
  lemma StepReads(x: string, scs: bool, s: Scan, r: Reading)
    requires s.at < |x| && InStep(s, r) && !(s.state.Normal? && Rewrites(x, s.at))
    ensures Step(x, scs, s) == PlainStep(x, scs, s)
    ensures Step(x, scs, s).at == UnitEnd(x, scs, s.at, r) && InStep(Step(x, scs, s), ReadUnit(x, scs, s.at, r))
  {
    hide ScanUnit, UnitItems, CanOpenAfter, KeywordAt, EmptyValuesAt, EscapeAt, StatementIsInsert, Rewrites;
    RewritesBy(x, s.at);
    if s.state.Normal? && x[s.at] == '{' {
      SymbolUnit(x, scs, s.at, CanOpenAfter(s.output), |s.consumed| + 1);
      OneText('{');
    }
  }

  lemma SymbolUnit(x: string, scs: bool, i: nat, canOpen: bool, number: nat)
    requires i < |x| && x[i] in {',', '{'}
    ensures ScanUnit(x, scs, i, Normal, canOpen) == Unit(i + 1, Normal, false)
    ensures UnitItems(x, i, i + 1, Normal, number) == [Text(x[i])]
  {
  }

  lemma ReadFurther(x: string, scs: bool, i: nat, end: nat, r: Reading)
    requires i < |x| && i < end
    ensures ReadTo(x, scs, i, end, r) == ReadTo(x, scs, UnitEnd(x, scs, i, r), end, ReadUnit(x, scs, i, r))
  {
    hide UnitEnd, ReadUnit;
  }

  // ---- The body of an outer join ----

  // The first '}' outside literals and comments, or the end of the text.
  function FirstBrace(x: string, scs: bool, i: nat, r: Reading): (brace: nat)
    requires i <= |x|
    ensures i <= brace <= |x|
    decreases |x| - i
  {
    if i == |x| || NormalAt(x, i, r.state, '}') then i
    else FirstBrace(x, scs, UnitEnd(x, scs, i, r), ReadUnit(x, scs, i, r))
  }

  // Up to that brace no unit outside literals and comments is rewritten.
  predicate BodyUntouched(x: string, scs: bool, i: nat, r: Reading)
    requires i <= |x|
    decreases |x| - i
  {
    i == |x| || NormalAt(x, i, r.state, '}') ||
    (!(r.state.Normal? && Rewrites(x, i)) && BodyUntouched(x, scs, UnitEnd(x, scs, i, r), ReadUnit(x, scs, i, r)))
  }

  /**
   Up to the first '}' outside literals and comments the body is read like any other text, and the
   copying stops behind it.
   */
  lemma {:induction false} CopyBodyReads(x: string, scs: bool, s: Scan, r: Reading)
    requires s.at <= |x| && InStep(s, r) && BodyUntouched(x, scs, s.at, r)
    ensures var brace, t := FirstBrace(x, scs, s.at, r), CopyBody(x, scs, s);
            && ReadTo(x, scs, s.at, brace, r).0 == brace && InStep(t, ReadTo(x, scs, s.at, brace, r).1)
            && t.at == if brace < |x| then brace + 1 else brace
    decreases |x| - s.at
  {
    hide Step, UnitEnd, ReadUnit, Rewrites;
    if s.at < |x| && !NormalAt(x, s.at, r.state, '}') {
      var brace := FirstBrace(x, scs, s.at, r);
      StepReads(x, scs, s, r);
      ReadFurther(x, scs, s.at, brace, r);
      CopyBodyReads(x, scs, Step(x, scs, s), ReadUnit(x, scs, s.at, r));
    }
  }

  // ---- The arguments of a function ----

  // The items between the cuts.
  function Cut(items: seq<Item>, cuts: seq<nat>): (pieces: seq<seq<Item>>)
    ensures |pieces| == |cuts| + 1
    decreases |cuts|
  {
    if cuts == [] then [items]
    else
      var last := cuts[|cuts| - 1];
      if last < |items| then Cut(items[..last], cuts[..|cuts| - 1]) + [items[last + 1..]]
      else Cut(items, cuts[..|cuts| - 1]) + [[]]
  }

  predicate CommasAt(items: seq<Item>, cuts: seq<nat>) {
    forall k :: 0 <= k < |cuts| ==> cuts[k] < |items| && items[cuts[k]] == Text(',')
  }

  lemma CutExtended(items: seq<Item>, cuts: seq<nat>, more: seq<Item>)
    requires CommasAt(items, cuts)
    ensures CommasAt(items + more, cuts)
    ensures var pieces := Cut(items, cuts);
            Cut(items + more, cuts) == pieces[..|cuts|] + [pieces[|cuts|] + more]
  {
    if cuts != [] {
      var last := cuts[|cuts| - 1];
      assert (items + more)[..last] == items[..last];
      assert (items + more)[last + 1..] == items[last + 1..] + more;
    }
  }

  lemma CutAtComma(items: seq<Item>, cuts: seq<nat>)
    requires CommasAt(items, cuts)
    ensures Cut(items + [Text(',')], cuts + [|items|]) == Cut(items, cuts) + [[]]
    ensures CommasAt(items + [Text(',')], cuts + [|items|])
  {
    var longer := items + [Text(',')];
    assert longer[..|items|] == items && longer[|items| + 1..] == [] && (cuts + [|items|])[..|cuts|] == cuts;
  }

  lemma CutCanOpen(items: seq<Item>, cuts: seq<nat>)
    requires CommasAt(items, cuts)
    ensures CanOpenAfter(Cut(items, cuts)[|cuts|]) == CanOpenAfter(items)
  {
  }

  // Text that counts as no argument at all.
  predicate Padding(items: seq<Item>) {
    forall k :: 0 <= k < |items| ==> items[k] in {Text(' '), Text('\t'), Text('('), Text(')')}
  }

  lemma PlainUnits(x: string, scs: bool, i: nat, state: LexState, canOpen: bool, number: nat)
    requires i < |x| && state.Normal?
    ensures var u := ScanUnit(x, scs, i, state, canOpen);
            && (x[i] in {' ', '\t', '(', ')', ','} ==>
                  u == Unit(i + 1, Normal, false) && UnitItems(x, i, u.end, state, number) == [Text(x[i])])
            && (x[i] !in {' ', '\t', '(', ')'} ==> !Padding(UnitItems(x, i, u.end, state, number)))
  {
    hide DollarUnit, TagLength;
    var items := UnitItems(x, i, ScanUnit(x, scs, i, state, canOpen).end, state, number);
    assert items[0] == Text(x[i]) || items[0] == Question || items[0].Marker?;
  }

  lemma PaddingJoined(a: seq<Item>, b: seq<Item>)
    ensures Padding(a + b) <==> Padding(a) && Padding(b)
  {
    if Padding(a + b) {
      assert forall k :: 0 <= k < |a| ==> a[k] == (a + b)[k];
      assert forall k :: 0 <= k < |b| ==> b[k] == (a + b)[|a| + k];
    }
  }

  lemma PaddingOfOne(c: char)
    requires c in {' ', '\t', '(', ')'}
    ensures Padding([Text(c)])
  {
  }

  // The ')' that closes the call, or the end of the text.
  function FirstClose(x: string, scs: bool, i: nat, r: Reading): (close: nat)
    requires i <= |x|
    ensures i <= close <= |x|
    decreases |x| - i
  {
    if i == |x| || (NormalAt(x, i, r.state, ')') && r.parens == 1) then i
    else FirstClose(x, scs, UnitEnd(x, scs, i, r), ReadUnit(x, scs, i, r))
  }

  // Up to that parenthesis no unit outside literals and comments is rewritten. Parentheses are counted
  // before a step could rewrite them.
  predicate CallUntouched(x: string, scs: bool, i: nat, r: Reading)
    requires i <= |x|
    decreases |x| - i
  {
    i == |x| || (NormalAt(x, i, r.state, ')') && r.parens == 1) ||
    (!(r.state.Normal? && x[i] != '(' && Rewrites(x, i))
     && CallUntouched(x, scs, UnitEnd(x, scs, i, r), ReadUnit(x, scs, i, r)))
  }

  // The collected arguments and the one being read are what was read, cut at the commas.
  ghost predicate Gathered(s: Scan, depth: nat, arguments: seq<seq<Item>>, content: bool, r: Reading) {
    && CommasAt(r.items, r.cuts) && Cut(r.items, r.cuts) == arguments + [s.output]
    && r.parens == depth && r.state == s.state && r.number == |s.consumed|
    && (content <==> !Padding(s.output)) && (!content ==> s.state.Normal?)
  }

  lemma {:induction false} CutsGrow(x: string, scs: bool, i: nat, end: nat, r: Reading)
    requires i <= |x|
    ensures |ReadTo(x, scs, i, end, r).1.cuts| >= |r.cuts|
    decreases |x| - i
  {
    hide ScanUnit, UnitItems;
    if i < end && i < |x| {
      CutsGrow(x, scs, UnitEnd(x, scs, i, r), end, ReadUnit(x, scs, i, r));
    }
  }

  // A unit that is no top-level comma.
  lemma GatheredUnit(x: string, scs: bool, s: Scan, depth: nat, arguments: seq<seq<Item>>, content: bool, r: Reading,
                     t: Scan, content': bool)
    requires s.at < |x| && Gathered(s, depth, arguments, content, r)
    requires !(NormalAt(x, s.at, s.state, ',') && depth == 1)
    requires t == PlainStep(x, scs, s)
    requires content' <==> content || (s.state.Normal? && x[s.at] !in {' ', '\t', '(', ')'})
    requires var depth' := depth + Nesting(x, s.at, s.state); depth' >= 0
    ensures t.at == UnitEnd(x, scs, s.at, r)
    ensures Gathered(t, depth + Nesting(x, s.at, s.state), arguments, content', ReadUnit(x, scs, s.at, r))
  {
    hide ScanUnit, UnitItems, CanOpenAfter, Cut, CommasAt, Padding;
    CutCanOpen(r.items, r.cuts);
    var pieces := Cut(r.items, r.cuts);
    assert |pieces| == |r.cuts| + 1 && pieces[|r.cuts|] == s.output;
    var more := UnitItems(x, s.at, t.at, s.state, |s.consumed| + 1);
    CutExtended(r.items, r.cuts, more);
    assert pieces[..|r.cuts|] == arguments;
    PaddingJoined(s.output, more);
    if s.state.Normal? {
      PlainUnits(x, scs, s.at, s.state, CanOpenAfter(s.output), |s.consumed| + 1);
      if x[s.at] in {' ', '\t', '(', ')'} {
        PaddingOfOne(x[s.at]);
      }
    }
  }

  lemma GatheredComma(x: string, scs: bool, s: Scan, arguments: seq<seq<Item>>, content: bool, r: Reading)
    requires s.at < |x| && x[s.at] == ',' && s.state.Normal? && Gathered(s, 1, arguments, content, r)
    ensures UnitEnd(x, scs, s.at, r) == s.at + 1
    ensures Gathered(s.(at := s.at + 1, output := []), 1, arguments + [s.output], false, ReadUnit(x, scs, s.at, r))
  {
    hide ScanUnit, UnitItems, CanOpenAfter, Cut, CommasAt;
    SymbolUnit(x, scs, s.at, CanOpenAfter(r.items), r.number + 1);
    CommaRead(x, scs, s.at, r);
    CutAtComma(r.items, r.cuts);
  }

  lemma CommaRead(x: string, scs: bool, i: nat, r: Reading)
    requires i < |x| && x[i] == ',' && r.state.Normal? && r.parens == 1
    ensures ReadUnit(x, scs, i, r) == r.(items := r.items + [Text(',')], cuts := r.cuts + [|r.items|])
  {
    hide ScanUnit, UnitItems, CanOpenAfter;
    SymbolUnit(x, scs, i, CanOpenAfter(r.items), r.number + 1);
  }

  // A parenthesis that does not close the call is one unit, copied.
  lemma ParenthesisStep(x: string, scs: bool, s: Scan)
    requires s.at < |x| && x[s.at] in {'(', ')'} && s.state.Normal?
    ensures PlainStep(x, scs, s) == Replaced(s, s.at + 1, [x[s.at]])
  {
    hide CanOpenAfter;
    assert x[s.at..s.at + 1] == [x[s.at]];
  }

  // What is collected of the arguments when nothing in them is rewritten.
  ghost predicate CollectedAs(x: string, c: Collected, room: nat, close: nat, r: Reading) {
    var pieces := Cut(r.items, r.cuts);
    && (c.arguments.Some? <==> |pieces| <= room)
    && (c.arguments.Some? ==>
          && c.arguments.value == (if |pieces| == 1 && Padding(pieces[0]) then [] else pieces)
          && c.scan.at == (if close < |x| then close + 1 else close)
          && c.scan.state == r.state && |c.scan.consumed| == r.number)
  }

  lemma AllCollectedAs(x: string, s: Scan, depth: nat, arguments: seq<seq<Item>>, content: bool, room: nat,
                       r: Reading)
    requires s.at <= |x| && Gathered(s, depth, arguments, content, r)
    ensures CollectedAs(x, AllCollected(s.(at := if s.at < |x| then s.at + 1 else s.at), arguments, content, room),
                        room, s.at, r)
  {
    hide Cut, CommasAt, Padding;
    var pieces := Cut(r.items, r.cuts);
    assert pieces[|arguments|] == s.output;
  }

  /**
   Without rewritings among them, the arguments collected are the text up to the closing
   parenthesis, read and cut at its top-level commas; an empty list has none. The collection fails
   exactly when there are more than fit.
   */
  lemma {:induction false} CollectReads(x: string, scs: bool, s: Scan, depth: nat, arguments: seq<seq<Item>>,
                                        content: bool, room: nat, r: Reading)
    requires s.at <= |x| && depth >= 1 && Gathered(s, depth, arguments, content, r)
    requires CallUntouched(x, scs, s.at, r)
    ensures var close := FirstClose(x, scs, s.at, r);
            && ReadTo(x, scs, s.at, close, r).0 == close
            && CollectedAs(x, Collect(x, scs, s, depth, arguments, content, room), room, close,
                           ReadTo(x, scs, s.at, close, r).1)
    decreases |x| - s.at
  {
    hide Step, PlainStep, Replaced, UnitEnd, ReadUnit, Rewrites, Collect, CollectedAs, AllCollected, Cut;
    hide CommasAt, Padding, Gathered;
    var close := FirstClose(x, scs, s.at, r);
    CollectHere(x, scs, s, depth, arguments, content, room);
    GatheredMeans(s, depth, arguments, content, r);
    if s.at == |x| || (s.state.Normal? && x[s.at] == ')' && depth == 1) {
      AllCollectedAs(x, s, depth, arguments, content, room, r);
    } else {
      var end, next := UnitEnd(x, scs, s.at, r), ReadUnit(x, scs, s.at, r);
      assert close == FirstClose(x, scs, end, next) && CallUntouched(x, scs, end, next);
      ReadFurther(x, scs, s.at, close, r);
      if s.state.Normal? && x[s.at] == ',' && depth == 1 {
        GatheredComma(x, scs, s, arguments, content, r);
        var t := s.(at := s.at + 1, output := []);
        if |arguments| >= room {
          CutsGrow(x, scs, end, close, next);
          GatheredMeans(t, 1, arguments + [s.output], false, next);
          TooMany(x, s, room, close, ReadTo(x, scs, end, close, next).1);
          ReadReachesBound(x, scs, end, next);
        } else {
          CollectReads(x, scs, t, depth, arguments + [s.output], false, room, next);
        }
      } else {
        var t, content' := PlainStep(x, scs, s), content || (s.state.Normal? && x[s.at] !in {' ', '\t', '(', ')'});
        GatheredUnit(x, scs, s, depth, arguments, content, r, t, content');
        if s.state.Normal? && x[s.at] in {'(', ')'} {
          ParenthesisStep(x, scs, s);
        } else {
          StepIsPlain(x, scs, s);
        }
        CollectReads(x, scs, t, depth + Nesting(x, s.at, s.state), arguments, content', room, next);
      }
    }
  }

  lemma StepIsPlain(x: string, scs: bool, s: Scan)
    requires s.at < |x| && !(s.state.Normal? && Rewrites(x, s.at))
    ensures Step(x, scs, s) == PlainStep(x, scs, s)
  {
    StepReads(x, scs, s, StartReading(s.output, |s.consumed|).(state := s.state));
  }

  lemma GatheredMeans(s: Scan, depth: nat, arguments: seq<seq<Item>>, content: bool, r: Reading)
    requires Gathered(s, depth, arguments, content, r)
    ensures r.parens == depth && r.state == s.state && |r.cuts| == |arguments|
  {
    hide CommasAt, Padding;
    assert |Cut(r.items, r.cuts)| == |r.cuts| + 1;
  }

  lemma TooMany(x: string, s: Scan, room: nat, close: nat, r: Reading)
    requires |r.cuts| >= room
    ensures CollectedAs(x, Collected(s, None), room, close, r)
  {
    assert |Cut(r.items, r.cuts)| == |r.cuts| + 1;
  }

  lemma {:induction false} ReadReachesBound(x: string, scs: bool, i: nat, r: Reading)
    requires i <= |x|
    ensures var close := FirstClose(x, scs, i, r); ReadTo(x, scs, i, close, r).0 == close
    decreases |x| - i
  {
    hide UnitEnd, ReadUnit;
    var close := FirstClose(x, scs, i, r);
    if i < close {
      ReadFurther(x, scs, i, close, r);
      ReadReachesBound(x, scs, UnitEnd(x, scs, i, r), ReadUnit(x, scs, i, r));
    }
  }

  /** The call at the current '(', when nothing in it is rewritten. */
  lemma CollectCallReads(x: string, scs: bool, s: Scan, room: nat)
    requires At(x, s.at, '(') && s.state.Normal?
    requires CallUntouched(x, scs, s.at + 1, StartReading([], |s.consumed|))
    ensures var start := StartReading([], |s.consumed|);
            var close := FirstClose(x, scs, s.at + 1, start);
            && CollectedAs(x, CollectCall(x, scs, s, room), room, close, ReadTo(x, scs, s.at + 1, close, start).1)
            && CollectCall(x, scs, s, room).scan.output == s.output
  {
    hide Collect, FirstClose, ReadTo, Cut, CallUntouched;
    var start, t := StartReading([], |s.consumed|), s.(at := s.at + 1, output := []);
    assert Cut([], []) == [[]] && [[]] == [] + [t.output] by {
      NothingCut();
    }
    CollectReads(x, scs, t, 1, [], false, room, start);
  }

  lemma NothingCut()
    ensures Cut([], []) == [[]]
  {
  }
}
