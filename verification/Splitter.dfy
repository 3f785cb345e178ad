/** Splitting a text into its statements at the semicolons that stand outside every literal. */
module StatementSplitter {
  import opened SqlLexer

  // ---- Trimming ----

  function TrimLeft(s: string): (t: string)
    ensures t != [] ==> !Blank(t[0])
  {
    if s != [] && Blank(s[0]) then TrimLeft(s[1..]) else s
  }

  function TrimRight(s: string): (t: string)
    ensures t <= s && (t != [] ==> !Blank(t[|t| - 1]))
  {
    if s != [] && Blank(s[|s| - 1]) then TrimRight(s[..|s| - 1]) else s
  }

  function Trim(s: string): string {
    TrimRight(TrimLeft(s))
  }

  const SPACES := {' ', '\t', '\n', '\r'}

  /** Trimming takes away blanks at either end and nothing else, and leaves none there. */
  lemma TrimDropsBlanks(s: string) returns (front: string, back: string)
    ensures s == front + Trim(s) + back && forall k :: 0 <= k < |front + back| ==> (front + back)[k] in SPACES
    ensures Trim(s) != "" ==> Trim(s)[0] !in SPACES && Trim(s)[|Trim(s)| - 1] !in SPACES
  {
    hide TrimLeft, TrimRight;
    var left := TrimLeft(s);
    LeftDropped(s);
    RightDropped(left);
    front, back := s[..|s| - |left|], left[|Trim(s)|..];
    assert left == Trim(s) + back && s == front + left;
    assert Trim(s) != "" ==> Trim(s)[0] == left[0];
  }

  lemma {:induction false} LeftDropped(s: string)
    ensures |TrimLeft(s)| <= |s| && TrimLeft(s) == s[|s| - |TrimLeft(s)|..]
    ensures forall j :: 0 <= j < |s| - |TrimLeft(s)| ==> Blank(s[j])
  {
    if s != [] && Blank(s[0]) {
      LeftDropped(s[1..]);
      assert forall j :: 0 < j < |s| ==> s[j] == s[1..][j - 1];
    }
  }

  lemma {:induction false} RightDropped(s: string)
    ensures forall j :: |TrimRight(s)| <= j < |s| ==> Blank(s[j])
    decreases |s|
  {
    if s != [] && Blank(s[|s| - 1]) {
      RightDropped(s[..|s| - 1]);
    }
  }

  // The trimmed pieces, without those that are empty.
  function Fragments(pieces: seq<string>): seq<string> {
    if pieces == [] then []
    else (if Trim(pieces[0]) == [] then [] else [Trim(pieces[0])]) + Fragments(pieces[1..])
  }

  // ---- Pieces between top-level semicolons ----

  function Pieces(x: string, scs: bool, start: nat): (pieces: seq<string>)
    requires start <= |x|
    ensures pieces != []
    decreases |x| - start
  {
    var cut := CutAt(x, scs, false, start, Normal);
    if cut < |x| then [x[start..cut]] + Pieces(x, scs, cut + 1) else [x[start..]]
  }

  lemma PiecesAt(x: string, scs: bool, start: nat, cut: nat)
    requires start <= |x| && cut == CutAt(x, scs, false, start, Normal)
    ensures cut == |x| ==> Pieces(x, scs, start) == [x[start..cut]]
    ensures cut < |x| ==> Pieces(x, scs, start) == [x[start..cut]] + Pieces(x, scs, cut + 1)
  {
    hide CutAt;
    assert x[start..] == x[start..|x|];
  }

  function Split(x: string, scs: bool): seq<string> {
    Fragments(Pieces(x, scs, 0))
  }

  function JoinPieces(pieces: seq<string>): string {
    if pieces == [] then "" else if |pieces| == 1 then pieces[0] else pieces[0] + ";" + JoinPieces(pieces[1..])
  }

  predicate Uncut(p: string, scs: bool) {
    CutAt(p, scs, false, 0, Normal) == |p|
  }

  predicate LexicallyClosed(p: string, scs: bool) {
    Closed(p, scs, 0, Normal)
  }

  // ---- Lexing suffixes and prefixes ----

  lemma {:induction false} CutAtShift(x: string, scs: bool, pairs: bool, s: nat, i: nat, state: LexState)
    requires s + i <= |x| && CanOpen(x, s)
    ensures CutAt(x, scs, pairs, s + i, state) == s + CutAt(x[s..], scs, pairs, i, state)
    decreases |x| - i
  {
    hide NextUnit;
    if s + i < |x| && !(state.Normal? && x[s + i] == ';') {
      NextUnitShift(x, scs, pairs, s, i, state);
      var u := NextUnit(x[s..], scs, pairs, i, state);
      CutAtShift(x, scs, pairs, s, u.end, u.state);
    }
  }

  lemma {:induction false} MarkersShift(x: string, scs: bool, s: nat, i: nat, state: LexState)
    requires s + i <= |x| && CanOpen(x, s)
    ensures Markers(x, scs, s + i, state) == Markers(x[s..], scs, i, state)
    decreases |x| - i
  {
    hide NextUnit;
    if s + i < |x| {
      NextUnitShift(x, scs, true, s, i, state);
      var u := NextUnit(x[s..], scs, true, i, state);
      MarkersShift(x, scs, s, u.end, u.state);
    }
  }

  // The text before a cut lexes as it does in place, and is closed.
  lemma {:induction false} BeforeCut(x: string, scs: bool, i: nat, state: LexState)
    requires i <= |x| && CutAt(x, scs, false, i, state) < |x|
    ensures var y := x[..CutAt(x, scs, false, i, state)];
            CutAt(y, scs, false, i, state) == |y| && Closed(y, scs, i, state)
    decreases |x| - i
  {
    hide NextUnit;
    var y := x[..CutAt(x, scs, false, i, state)];
    if i < |y| {
      var u := NextUnit(x, scs, false, i, state);
      NextUnitPrefix(y, x, scs, false, i, state);
      BeforeCut(x, scs, u.end, u.state);
    }
  }

  lemma {:induction false} BlankTail(x: string, scs: bool, pairs: bool, i: nat, state: LexState)
    requires i <= |x| && forall k :: i <= k < |x| ==> Blank(x[k])
    ensures CutAt(x, scs, pairs, i, state) == |x| && Markers(x, scs, i, state) == 0
    decreases |x| - i
  {
    hide NextUnit;
    if i < |x| {
      var u, m := NextUnit(x, scs, pairs, i, state), NextUnit(x, scs, true, i, state);
      BlankTail(x, scs, pairs, u.end, u.state);
      BlankTail(x, scs, pairs, m.end, m.state);
    }
  }

  predicate BlankAfter(y: string, x: string) {
    y <= x && forall k :: |y| <= k < |x| ==> Blank(x[k])
  }

  lemma {:induction false} TrimmedTailCut(y: string, x: string, scs: bool, i: nat, state: LexState)
    requires BlankAfter(y, x) && i <= |y| && CutAt(x, scs, false, i, state) == |x|
    ensures CutAt(y, scs, false, i, state) == |y|
    decreases |y| - i
  {
    hide NextUnit;
    if i < |y| {
      var u := NextUnit(x, scs, false, i, state);
      if u.end <= |y| {
        NextUnitPrefix(y, x, scs, false, i, state);
        TrimmedTailCut(y, x, scs, u.end, u.state);
      } else {
        NextUnitOvershoot(y, x, scs, false, i, state);
      }
    }
  }

  lemma {:induction false} TrimmedTailMarkers(y: string, x: string, scs: bool, i: nat, state: LexState)
    requires BlankAfter(y, x) && i <= |y|
    ensures Markers(y, scs, i, state) == Markers(x, scs, i, state)
    decreases |y| - i
  {
    hide NextUnit;
    if i == |y| {
      BlankTail(x, scs, true, i, state);
    } else {
      var u := NextUnit(x, scs, true, i, state);
      if u.end <= |y| {
        NextUnitPrefix(y, x, scs, true, i, state);
        TrimmedTailMarkers(y, x, scs, u.end, u.state);
      } else {
        NextUnitOvershoot(y, x, scs, true, i, state);
        BlankTail(x, scs, true, u.end, u.state);
      }
    }
  }

  lemma {:induction false} TrimKeepsLexing(p: string, scs: bool)
    ensures Uncut(p, scs) ==> Uncut(Trim(p), scs)
    ensures Markers(Trim(p), scs, 0, Normal) == Markers(p, scs, 0, Normal)
    decreases |p|
  {
    hide NextUnit, TrimRight;
    if p != [] && Blank(p[0]) {
      PlainUnit(p, scs, true, 0);
      PlainUnit(p, scs, false, 0);
      TrimKeepsLexing(p[1..], scs);
      CutAtShift(p, scs, false, 1, 0, Normal);
      MarkersShift(p, scs, 1, 0, Normal);
    } else {
      TrimRightBlank(p);
      if Uncut(p, scs) {
        TrimmedTailCut(Trim(p), p, scs, 0, Normal);
      }
      TrimmedTailMarkers(Trim(p), p, scs, 0, Normal);
    }
  }

  lemma TrimRightBlank(s: string)
    ensures BlankAfter(TrimRight(s), s)
  {
  }

  lemma TrimIdempotent(s: string)
    ensures Trim(Trim(s)) == Trim(s)
  {
  }

  // ---- Re-splitting a fragment gives that fragment ----

  // No piece can be cut again, and every piece but the last is closed.
  ghost predicate Atomic(pieces: seq<string>, scs: bool) {
    && (forall k :: 0 <= k < |pieces| ==> Uncut(pieces[k], scs))
    && (forall k :: 0 <= k < |pieces| - 1 ==> LexicallyClosed(pieces[k], scs))
  }

  lemma FirstPiece(x: string, scs: bool, start: nat)
    requires start <= |x| && CanOpen(x, start)
    ensures Uncut(Pieces(x, scs, start)[0], scs)
    ensures CutAt(x, scs, false, start, Normal) < |x| ==> LexicallyClosed(Pieces(x, scs, start)[0], scs)
  {
    hide CutAt, Closed, Pieces;
    var cut := CutAt(x, scs, false, start, Normal);
    PiecesAt(x, scs, start, cut);
    CutAtShift(x, scs, false, start, 0, Normal);
    assert x[start..|x|] == x[start..];
    if cut < |x| {
      BeforeCut(x[start..], scs, 0, Normal);
      assert x[start..][..cut - start] == x[start..cut];
    }
  }

  lemma {:induction false} PiecesAtomic(x: string, scs: bool, start: nat)
    requires start <= |x| && CanOpen(x, start)
    ensures Atomic(Pieces(x, scs, start), scs)
    decreases |x| - start
  {
    hide CutAt;
    FirstPiece(x, scs, start);
    var cut := CutAt(x, scs, false, start, Normal);
    if cut < |x| {
      PiecesAtomic(x, scs, cut + 1);
    }
  }

  lemma {:induction false} PiecesJoin(x: string, scs: bool, start: nat)
    requires start <= |x|
    ensures JoinPieces(Pieces(x, scs, start)) == x[start..]
    decreases |x| - start
  {
    hide CutAt, Pieces;
    var cut := CutAt(x, scs, false, start, Normal);
    PiecesAt(x, scs, start, cut);
    if cut < |x| {
      PiecesJoin(x, scs, cut + 1);
      assert x[start..] == x[start..cut] + ";" + x[cut + 1..];
    }
  }

  ghost predicate Indivisible(f: string, scs: bool) {
    f != [] && Trim(f) == f && Uncut(f, scs)
  }

  lemma {:induction false} FragmentsIndivisible(pieces: seq<string>, scs: bool)
    requires forall k :: 0 <= k < |pieces| ==> Uncut(pieces[k], scs)
    ensures forall k :: 0 <= k < |Fragments(pieces)| ==> Indivisible(Fragments(pieces)[k], scs)
  {
    hide CutAt, Markers, Trim;
    if pieces != [] {
      TrimKeepsLexing(pieces[0], scs);
      TrimIdempotent(pieces[0]);
      FragmentsIndivisible(pieces[1..], scs);
    }
  }

  /** Every fragment of a split is trimmed, non-empty, and splits into itself. */
  lemma SplitIsStable(x: string, scs: bool, k: nat)
    requires k < |Split(x, scs)|
    ensures Split(Split(x, scs)[k], scs) == [Split(x, scs)[k]]
    ensures Split(x, scs)[k] != [] && Trim(Split(x, scs)[k]) == Split(x, scs)[k]
  {
    PiecesAtomic(x, scs, 0);
    FragmentsIndivisible(Pieces(x, scs, 0), scs);
    var f := Split(x, scs)[k];
    assert Indivisible(f, scs);
    assert Pieces(f, scs, 0) == [f];
    assert Fragments([f]) == [f] + Fragments([]);
  }

  // ---- Splitting a concatenation ----

  lemma {:induction false} CutAtJoined(a: string, b: string, scs: bool, i: nat, state: LexState)
    requires i <= |a| && Closed(a, scs, i, state)
    ensures CutAt(a + ";" + b, scs, false, i, state) == CutAt(a, scs, false, i, state)
    decreases |a| - i
  {
    hide NextUnit;
    var x := a + ";" + b;
    if i < |a| && !(state.Normal? && a[i] == ';') {
      var u := NextUnit(x, scs, false, i, state);
      if u.end <= |a| {
        NextUnitPrefix(a, x, scs, false, i, state);
        CutAtJoined(a, b, scs, u.end, u.state);
      } else {
        NextUnitOvershoot(a, x, scs, false, i, state);
      }
    }
  }

  lemma {:induction false} ClosedAfterCut(a: string, scs: bool, i: nat, state: LexState)
    requires i <= |a| && Closed(a, scs, i, state) && CutAt(a, scs, false, i, state) < |a|
    ensures Closed(a, scs, CutAt(a, scs, false, i, state) + 1, Normal)
    decreases |a| - i
  {
    hide NextUnit;
    if state.Normal? && a[i] == ';' {
      PlainUnit(a, scs, false, i);
    } else {
      var u := NextUnit(a, scs, false, i, state);
      ClosedAfterCut(a, scs, u.end, u.state);
    }
  }

  lemma {:induction false} PiecesShift(x: string, scs: bool, s: nat, i: nat)
    requires s + i <= |x| && CanOpen(x, s)
    ensures Pieces(x, scs, s + i) == Pieces(x[s..], scs, i)
    decreases |x| - i
  {
    hide CutAt, Pieces;
    CutAtShift(x, scs, false, s, i, Normal);
    var cut := CutAt(x[s..], scs, false, i, Normal);
    PiecesAt(x, scs, s + i, s + cut);
    PiecesAt(x[s..], scs, i, cut);
    assert x[s..][i..cut] == x[s + i..s + cut];
    if s + cut < |x| {
      PiecesShift(x, scs, s, cut + 1);
    }
  }

  lemma {:induction false} PiecesJoined(a: string, b: string, scs: bool, start: nat)
    requires start <= |a| && Closed(a, scs, start, Normal)
    ensures Pieces(a + ";" + b, scs, start) == Pieces(a, scs, start) + Pieces(b, scs, 0)
    decreases |a| - start
  {
    hide CutAt, Closed, Pieces;
    var x := a + ";" + b;
    var cut := CutAt(a, scs, false, start, Normal);
    CutAtJoined(a, b, scs, start, Normal);
    PiecesAt(x, scs, start, cut);
    PiecesAt(a, scs, start, cut);
    assert x[start..cut] == a[start..cut];
    if cut < |a| {
      ClosedAfterCut(a, scs, start, Normal);
      PiecesJoined(a, b, scs, cut + 1);
    } else {
      PiecesShift(x, scs, |a| + 1, 0);
      assert x[|a| + 1..] == b;
    }
  }

  lemma {:induction false} FragmentsJoined(p: seq<string>, q: seq<string>)
    ensures Fragments(p + q) == Fragments(p) + Fragments(q)
  {
    hide Trim;
    if p == [] {
      assert p + q == q && Fragments(p) + Fragments(q) == Fragments(q);
    } else {
      assert (p + q)[0] == p[0] && (p + q)[1..] == p[1..] + q;
      FragmentsJoined(p[1..], q);
      var first := if Trim(p[0]) == [] then [] else [Trim(p[0])];
      assert first + (Fragments(p[1..]) + Fragments(q)) == (first + Fragments(p[1..])) + Fragments(q);
    }
  }

  /** Behind a text that leaves nothing open, a semicolon separates the two splits. */
  lemma SplitIsCompositional(a: string, b: string, scs: bool)
    requires LexicallyClosed(a, scs)
    ensures Split(a + ";" + b, scs) == Split(a, scs) + Split(b, scs)
  {
    PiecesJoined(a, b, scs, 0);
    FragmentsJoined(Pieces(a, scs, 0), Pieces(b, scs, 0));
  }

  lemma UncutPiece(p: string, scs: bool)
    requires Uncut(p, scs)
    ensures Pieces(p, scs, 0) == [p]
  {
    hide CutAt;
    assert p[0..] == p;
  }

  /**
   The pieces of a text are the only way to cut it at semicolons into texts that cannot be cut
   further and of which none but the last leaves anything open.
   */
  lemma {:induction false} PiecesAreUnique(x: string, scs: bool, pieces: seq<string>)
    ensures pieces == Pieces(x, scs, 0) <==> pieces != [] && Atomic(pieces, scs) && JoinPieces(pieces) == x
    decreases |pieces|
  {
    hide NextUnit, Closed, Pieces, Uncut, CutAt;
    PiecesAtomic(x, scs, 0);
    PiecesJoin(x, scs, 0);
    if pieces != [] && Atomic(pieces, scs) && JoinPieces(pieces) == x {
      var p := pieces[0];
      UncutPiece(p, scs);
      if |pieces| > 1 {
        var rest := JoinPieces(pieces[1..]);
        PiecesAreUnique(rest, scs, pieces[1..]);
        assert LexicallyClosed(p, scs);
        PiecesJoined(p, rest, scs, 0);
        assert [p] + pieces[1..] == pieces;
      }
    }
  }

  // ---- Markers ----

  lemma {:induction false} PairsKeepCut(x: string, scs: bool, i: nat, state: LexState)
    requires i <= |x|
    ensures CutAt(x, scs, true, i, state) == CutAt(x, scs, false, i, state)
    decreases |x| - i
  {
    hide LexUnit;
    if i < |x| && !(state.Normal? && x[i] == ';') {
      var u := NextUnit(x, scs, true, i, state);
      PairsKeepCut(x, scs, u.end, u.state);
      if state.Normal? && PairAt(x, i) {
        PlainUnit(x, scs, false, i);
        PlainUnit(x, scs, false, i + 1);
      }
    }
  }

  lemma {:induction false} MarkersSplitAtCut(x: string, scs: bool, i: nat, state: LexState)
    requires i <= |x| && CutAt(x, scs, true, i, state) < |x|
    ensures var cut := CutAt(x, scs, true, i, state);
            Markers(x, scs, i, state) == Markers(x[..cut], scs, i, state) + Markers(x, scs, cut + 1, Normal)
    decreases |x| - i
  {
    hide NextUnit;
    var y := x[..CutAt(x, scs, true, i, state)];
    if i < |y| {
      var u := NextUnit(x, scs, true, i, state);
      NextUnitPrefix(y, x, scs, true, i, state);
      MarkersSplitAtCut(x, scs, u.end, u.state);
    } else {
      PlainUnit(x, scs, true, i);
    }
  }

  function TotalMarkers(texts: seq<string>, scs: bool): nat {
    if texts == [] then 0 else Markers(texts[0], scs, 0, Normal) + TotalMarkers(texts[1..], scs)
  }

  lemma {:induction false} PiecesKeepMarkers(x: string, scs: bool, start: nat)
    requires start <= |x| && CanOpen(x, start)
    ensures TotalMarkers(Pieces(x, scs, start), scs) == Markers(x, scs, start, Normal)
    decreases |x| - start
  {
    hide CutAt, Markers;
    var cut := CutAt(x, scs, false, start, Normal);
    MarkersShift(x, scs, start, 0, Normal);
    if cut < |x| {
      PairsKeepCut(x, scs, start, Normal);
      CutAtShift(x, scs, true, start, 0, Normal);
      MarkersSplitAtCut(x[start..], scs, 0, Normal);
      assert x[start..][..cut - start] == x[start..cut];
      MarkersShift(x, scs, start, cut + 1 - start, Normal);
      PiecesKeepMarkers(x, scs, cut + 1);
    }
  }

  lemma {:induction false} FragmentsKeepMarkers(pieces: seq<string>, scs: bool)
    ensures TotalMarkers(Fragments(pieces), scs) == TotalMarkers(pieces, scs)
  {
    hide CutAt, NextUnit, Trim;
    if pieces != [] {
      var t, rest := Trim(pieces[0]), Fragments(pieces[1..]);
      TrimKeepsLexing(pieces[0], scs);
      FragmentsKeepMarkers(pieces[1..], scs);
      assert [] + rest == rest && ([t] + rest)[1..] == rest;
    }
  }

  /** Splitting neither loses a parameter marker nor invents one. */
  lemma SplitKeepsMarkers(x: string, scs: bool)
    ensures TotalMarkers(Split(x, scs), scs) == Markers(x, scs, 0, Normal)
  {
    PiecesKeepMarkers(x, scs, 0);
    FragmentsKeepMarkers(Pieces(x, scs, 0), scs);
  }

  // ---- The splitting loop ----

  lemma TrimRange(x: string, lo: nat, hi: nat)
    requires lo <= hi <= |x|
    ensures lo < hi && Blank(x[lo]) ==> Trim(x[lo..hi]) == Trim(x[lo + 1..hi])
    ensures lo < hi && !Blank(x[lo]) ==> Trim(x[lo..hi]) == TrimRight(x[lo..hi])
    ensures lo < hi && Blank(x[hi - 1]) ==> TrimRight(x[lo..hi]) == TrimRight(x[lo..hi - 1])
    ensures lo < hi && !Blank(x[hi - 1]) ==> TrimRight(x[lo..hi]) == x[lo..hi]
    ensures lo == hi ==> Trim(x[lo..hi]) == TrimRight(x[lo..hi]) == []
  {
    if lo < hi {
      assert x[lo..hi][1..] == x[lo + 1..hi];
      assert x[lo..hi][..hi - lo - 1] == x[lo..hi - 1];
    }
  }

  // Appends the trimmed text between `first` and `last`, unless nothing is left of it.
  method AppendRange(list: seq<string>, x: string, first: nat, last: nat) returns (extended: seq<string>)
    requires first <= last <= |x|
    ensures extended == list + Fragments([x[first..last]])
  {
    hide Trim, TrimRight;
    var start, end := first, last;
    while start < end && Blank(x[start])
      invariant first <= start <= end && Trim(x[start..end]) == Trim(x[first..last])
    {
      TrimRange(x, start, end);
      start := start + 1;
    }
    TrimRange(x, start, end);
    while end > start && Blank(x[end - 1])
      invariant start <= end <= last && TrimRight(x[start..end]) == Trim(x[first..last])
    {
      TrimRange(x, start, end);
      end := end - 1;
    }
    TrimRange(x, start, end);
    FragmentsOfOne(x[first..last]);
    if end <= start {
      return list;
    }
    return list + [x[start..end]];
  }

  lemma FragmentsOfOne(p: string)
    ensures Fragments([p]) == if Trim(p) == [] then [] else [Trim(p)]
  {
    hide Trim;
    assert [p][1..] == [];
  }

  method MatchDollarQuoteOpen(x: string, position: nat) returns (tagLength: nat)
    requires At(x, position, '$')
    ensures tagLength == TagLength(x, position)
  {
    var cursor := position + 1;
    if cursor < |x| && x[cursor] != '$' {
      if !IdentifierStart(x[cursor]) {
        return 0;
      }
      cursor := cursor + 1;
      while cursor < |x| && IdentifierPart(x[cursor])
        invariant position + 2 <= cursor <= |x| && IdentifierEnd(x, cursor) == IdentifierEnd(x, position + 2)
      {
        cursor := cursor + 1;
      }
    }
    if cursor < |x| && x[cursor] == '$' {
      return cursor - position + 1;
    }
    return 0;
  }

  // Skips a dollar-quoted body up to and including its closing delimiter.
  method SkipDollarBody(x: string, position: nat, tagLength: nat) returns (index: nat)
    requires At(x, position, '$') && tagLength == TagLength(x, position) > 0
    ensures index == DollarUnit(x, position).end
  {
    hide CloseTag, TagLength;
    index := position + tagLength;
    var tag := x[position..position + tagLength];
    while index < |x|
      invariant position + tagLength <= index <= |x|
      invariant CloseTag(x, index, tag) == CloseTag(x, position + tagLength, tag)
    {
      CloseTagStep(x, index, tag);
      if x[index] == '$' && index + tagLength <= |x| && x[index..index + tagLength] == tag {
        return index + tagLength;
      }
      index := index + 1;
    }
    CloseTagStep(x, index, tag);
  }

  lemma CloseTagStep(x: string, i: nat, tag: string)
    requires i <= |x| && tag != [] && tag[0] == '$'
    ensures i == |x| ==> CloseTag(x, i, tag) == NotFound
    ensures i < |x| ==>
              CloseTag(x, i, tag) ==
              if x[i] == '$' && i + |tag| <= |x| && x[i..i + |tag|] == tag then Found(i + |tag|)
              else CloseTag(x, i + 1, tag)
  {
    assert i + |tag| <= |x| && x[i..i + |tag|] == tag ==> x[i] == x[i..i + |tag|][0];
  }

  // One turn of the loop outside a semicolon.
  method AdvanceNormal(x: string, position: nat) returns (index: nat, state: ScanState)
    requires position < |x|
    ensures var u := NormalUnit(x, position, CanOpen(x, position)); index == u.end && Lexical(state, 1) == u.state
  {
    hide TagLength, DollarUnit;
    var current := x[position];
    index, state := position + 1, NORMAL;
    if (current == 'E' || current == 'e') && position + 1 < |x| && x[position + 1] == '\'' {
      index, state := position + 2, IN_ESCAPE_STRING;
    } else if current == '$' && (position == 0 || !IdentifierPart(x[position - 1])) {
      var tagLength := MatchDollarQuoteOpen(x, position);
      if tagLength > 0 {
        index := SkipDollarBody(x, position, tagLength);
      }
    } else if current == '\'' {
      state := IN_SINGLE_QUOTE;
    } else if current == '"' {
      state := IN_DOUBLE_QUOTE;
    } else if current == '-' && position + 1 < |x| && x[position + 1] == '-' {
      index, state := position + 2, IN_LINE_COMMENT;
    } else if current == '/' && position + 1 < |x| && x[position + 1] == '*' {
      index, state := position + 2, IN_BLOCK_COMMENT;
    }
  }

  // One turn inside a literal or a quoted identifier.
  method AdvanceQuoted(x: string, position: nat, inside: ScanState, quote: char, backslash: bool)
    returns (index: nat, state: ScanState)
    requires position < |x| && inside !in {NORMAL, IN_BLOCK_COMMENT}
    ensures var u := QuotedUnit(x, position, Lexical(inside, 0), quote, backslash);
            index == u.end && Lexical(state, 0) == u.state
    ensures state in {NORMAL, inside}
  {
    var current := x[position];
    index, state := position + 1, inside;
    if current == '\\' && backslash && position + 1 < |x| {
      index := position + 2;
    } else if current == quote && position + 1 < |x| && x[position + 1] == quote {
      index := position + 2;
    } else if current == quote {
      state := NORMAL;
    }
  }

  // One turn inside a block comment; comments nest.
  method AdvanceBlockComment(x: string, position: nat, depth: nat) returns (index: nat, state: ScanState, depth': nat)
    requires position < |x| && depth > 0
    ensures var u := BlockCommentUnit(x, position, depth); index == u.end && Lexical(state, depth') == u.state
    ensures state == NORMAL || depth' > 0
  {
    index, state, depth' := position + 1, IN_BLOCK_COMMENT, depth;
    if x[position] == '/' && position + 1 < |x| && x[position + 1] == '*' {
      index, depth' := position + 2, depth + 1;
    } else if x[position] == '*' && position + 1 < |x| && x[position + 1] == '/' {
      index, depth' := position + 2, depth - 1;
      if depth' == 0 {
        state := NORMAL;
      }
    }
  }

  method Advance(x: string, scs: bool, position: nat, inside: ScanState, depth: nat)
    returns (index: nat, state: ScanState, depth': nat)
    requires position < |x| && (inside == IN_BLOCK_COMMENT ==> depth > 0)
    ensures var u := NextUnit(x, scs, false, position, Lexical(inside, depth));
            index == u.end && Lexical(state, depth') == u.state
    ensures state == IN_BLOCK_COMMENT ==> depth' > 0
  {
    hide NormalUnit, QuotedUnit, BlockCommentUnit;
    depth' := 1;
    match inside
    case NORMAL => index, state := AdvanceNormal(x, position);
    case IN_SINGLE_QUOTE => index, state := AdvanceQuoted(x, position, inside, '\'', !scs);
    case IN_ESCAPE_STRING => index, state := AdvanceQuoted(x, position, inside, '\'', true);
    case IN_DOUBLE_QUOTE => index, state := AdvanceQuoted(x, position, inside, '"', false);
    case IN_LINE_COMMENT =>
      index, state := position + 1, if x[position] == '\n' then NORMAL else IN_LINE_COMMENT;
    case IN_BLOCK_COMMENT => index, state, depth' := AdvanceBlockComment(x, position, depth);
  }

  lemma FragmentsOfPieces(x: string, scs: bool, start: nat, cut: nat)
    requires start <= |x| && cut == CutAt(x, scs, false, start, Normal)
    ensures Fragments(Pieces(x, scs, start)) ==
            Fragments([x[start..cut]]) + if cut < |x| then Fragments(Pieces(x, scs, cut + 1)) else []
  {
    hide CutAt, Pieces, Trim;
    PiecesAt(x, scs, start, cut);
    if cut < |x| {
      FragmentsJoined([x[start..cut]], Pieces(x, scs, cut + 1));
    }
  }

  method SplitStatements(x: string, scs: bool) returns (list: seq<string>)
    ensures list == Split(x, scs)
  {
    hide NextUnit, Pieces, Fragments;
    list := [];
    var index, fragmentStart, state, depth := 0, 0, NORMAL, 0;
    while index < |x|
      invariant 0 <= fragmentStart <= index <= |x| && (state == IN_BLOCK_COMMENT ==> depth > 0)
      invariant CutAt(x, scs, false, index, Lexical(state, depth)) == CutAt(x, scs, false, fragmentStart, Normal)
      invariant list + Fragments(Pieces(x, scs, fragmentStart)) == Split(x, scs)
      decreases |x| - index
    {
      if state == NORMAL && x[index] == ';' {
        FragmentsOfPieces(x, scs, fragmentStart, index);
        list := AppendRange(list, x, fragmentStart, index);
        index := index + 1;
        fragmentStart := index;
      } else {
        index, state, depth := Advance(x, scs, index, state, depth);
      }
    }
    FragmentsOfPieces(x, scs, fragmentStart, |x|);
    list := AppendRange(list, x, fragmentStart, |x|);
  }
}
