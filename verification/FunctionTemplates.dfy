/**
 The texts that PostgreSQL is given for the scalar functions of ODBC, spelled out for each function
 and any arguments.
 */
module FunctionTemplates {
  import opened Ascii
  import opened ScannerModel

  // ---- Expanding a template piece by piece ----

  // An argument that is not given leaves nothing.
  function GivenArgument(arguments: seq<seq<Item>>, k: nat): seq<Item> {
    if k < |arguments| then arguments[k] else []
  }

  function Separated(arguments: seq<seq<Item>>): seq<Item> {
    if arguments == [] then []
    else if |arguments| == 1 then arguments[0]
    else arguments[0] + Texts(", ") + Separated(arguments[1..])
  }

  lemma {:induction false} SeparatedBehind(arguments: seq<seq<Item>>, last: seq<Item>)
    requires arguments != []
    ensures Separated(arguments + [last]) == Separated(arguments) + Texts(", ") + last
  {
    hide Texts;
    var all := arguments + [last];
    assert all[1..] == arguments[1..] + [last] && all[0] == arguments[0];
    if |arguments| == 1 {
      assert all[1..] == [last];
    } else {
      SeparatedBehind(arguments[1..], last);
    }
  }

  lemma {:induction false} JoinIsSeparated(arguments: seq<seq<Item>>)
    ensures JoinArguments(arguments) == Separated(arguments)
  {
    hide Texts, Separated;
    if |arguments| > 1 {
      var front, last := arguments[..|arguments| - 1], arguments[|arguments| - 1];
      JoinIsSeparated(front);
      SeparatedBehind(front, last);
      assert front + [last] == arguments;
    } else {
      FewSeparated(arguments);
    }
  }

  lemma FewSeparated(arguments: seq<seq<Item>>)
    requires |arguments| <= 1
    ensures Separated(arguments) == JoinArguments(arguments)
  {
  }

  predicate Complete(template: string) {
    template != "" && template[|template| - 1] != '$'
  }

  function Expanded(template: string, arguments: seq<seq<Item>>): seq<Item>
    requires Complete(template)
  {
    Expand(template, 0, arguments)
  }

  lemma ExpandAtBehind(front: string, rest: string, i: nat, arguments: seq<seq<Item>>)
    requires Complete(rest) && i < |rest|
    ensures Complete(front + rest) && (front + rest)[|front| + i] == rest[i]
    ensures ExpandAt(front + rest, |front| + i, arguments) == ExpandAt(rest, i, arguments)
  {
    hide JoinArguments;
    if rest[i] == '$' {
      assert (front + rest)[|front| + i + 1] == rest[i + 1];
    }
  }

  lemma {:induction false} ExpandBehind(front: string, rest: string, i: nat, arguments: seq<seq<Item>>)
    requires Complete(rest) && i <= |rest|
    ensures Complete(front + rest) && Expand(front + rest, |front| + i, arguments) == Expand(rest, i, arguments)
    decreases |rest| - i
  {
    hide ExpandAt;
    if i < |rest| {
      ExpandAtBehind(front, rest, i, arguments);
      ExpandBehind(front, rest, i + if rest[i] == '$' then 2 else 1, arguments);
    }
  }

  // Text in front stands for itself.
  lemma {:induction false} TextFirst(text: string, rest: string, arguments: seq<seq<Item>>)
    requires '$' !in text && Complete(rest)
    ensures Complete(text + rest) && Expanded(text + rest, arguments) == Texts(text) + Expanded(rest, arguments)
  {
    hide JoinArguments, Texts, Expand, ExpandAt;
    if text == "" {
      assert text + rest == rest;
      NoTexts();
      assert Texts("") + Expanded(rest, arguments) == Expanded(rest, arguments);
    } else {
      assert text[0] in text && text == [text[0]] + text[1..];
      TextFirst(text[1..], rest, arguments);
      assert text + rest == [text[0]] + (text[1..] + rest);
      CharacterFirst(text[0], text[1..] + rest, arguments);
      TextsJoined([text[0]], text[1..]);
      assert Texts([text[0]]) + (Texts(text[1..]) + Expanded(rest, arguments))
          == (Texts([text[0]]) + Texts(text[1..])) + Expanded(rest, arguments);
    }
  }

  lemma CharacterFirst(c: char, rest: string, arguments: seq<seq<Item>>)
    requires c != '$' && Complete(rest)
    ensures Complete([c] + rest) && Expanded([c] + rest, arguments) == Texts([c]) + Expanded(rest, arguments)
  {
    hide JoinArguments, Texts;
    OneText(c);
    ExpandBehind([c], rest, 0, arguments);
  }

  lemma TextLast(text: string, arguments: seq<seq<Item>>)
    requires text != "" && '$' !in text
    ensures Complete(text) && Expanded(text, arguments) == Texts(text)
  {
    hide JoinArguments, Texts, Expand, ExpandAt;
    var front, last := text[..|text| - 1], text[|text| - 1];
    assert text == front + [last] && last in text && forall c <- front :: c in text;
    OneCharacter(last, arguments);
    TextFirst(front, [last], arguments);
    TextsJoined(front, [last]);
  }

  lemma OneCharacter(c: char, arguments: seq<seq<Item>>)
    requires c != '$'
    ensures Expanded([c], arguments) == Texts([c])
  {
    hide JoinArguments, Texts;
    OneText(c);
    assert Expand([c], 1, arguments) == [];
    assert [Text(c)] + [] == [Text(c)];
  }

  // A reference stands for its argument.
  function Reference(k: nat): string
    requires k < 9
  {
    ['$', '1' + k as char]
  }

  lemma ReferenceAt(k: nat, rest: string, arguments: seq<seq<Item>>)
    requires k < 9 && Complete(rest)
    ensures var template := Reference(k) + rest;
            Complete(template) && template[0] == '$' && ExpandAt(template, 0, arguments) == GivenArgument(arguments, k)
  {
    hide JoinArguments;
    var template := Reference(k) + rest;
    assert template[0] == '$' && template[1] == '1' + k as char;
  }

  lemma ReferenceFirst(k: nat, rest: string, arguments: seq<seq<Item>>)
    requires k < 9 && Complete(rest)
    ensures var template := Reference(k) + rest;
            && Complete(template)
            && Expanded(template, arguments) == GivenArgument(arguments, k) + Expanded(rest, arguments)
  {
    hide ExpandAt, GivenArgument;
    ReferenceAt(k, rest, arguments);
    ExpandBehind(Reference(k), rest, 0, arguments);
  }

  lemma ListFirst(rest: string, arguments: seq<seq<Item>>)
    requires Complete(rest)
    ensures Complete("$*" + rest)
    ensures Expanded("$*" + rest, arguments) == Separated(arguments) + Expanded(rest, arguments)
  {
    hide JoinArguments;
    JoinIsSeparated(arguments);
    ExpandBehind("$*", rest, 0, arguments);
  }

  // ---- Shapes of templates ----

  // The shape "text $i text $j text".
  function TwoShape(a: string, i: nat, b: string, j: nat, c: string): string
    requires i < 9 && j < 9
  {
    a + (Reference(i) + (b + (Reference(j) + c)))
  }

  lemma TwoReferences(a: string, i: nat, b: string, j: nat, c: string, arguments: seq<seq<Item>>)
    requires i < 9 && j < 9 && '$' !in a && '$' !in b && Complete(c)
    ensures Complete(TwoShape(a, i, b, j, c))
    ensures Expanded(TwoShape(a, i, b, j, c), arguments)
            == Texts(a) + GivenArgument(arguments, i) + Texts(b) + GivenArgument(arguments, j) + Expanded(c, arguments)
  {
    hide Texts, Expanded, GivenArgument, Complete;
    ReferenceFirst(j, c, arguments);
    TextFirst(b, Reference(j) + c, arguments);
    ReferenceFirst(i, b + (Reference(j) + c), arguments);
    TextFirst(a, Reference(i) + (b + (Reference(j) + c)), arguments);
    FiveJoined(Texts(a), GivenArgument(arguments, i), Texts(b), GivenArgument(arguments, j), Expanded(c, arguments));
  }

  lemma FiveJoined(a: seq<Item>, b: seq<Item>, c: seq<Item>, d: seq<Item>, e: seq<Item>)
    ensures a + (b + (c + (d + e))) == a + b + c + d + e
  {
  }

  lemma ThreeJoined(a: seq<Item>, b: seq<Item>, c: seq<Item>)
    ensures a + (b + c) == a + b + c
  {
  }

  // The shape "text $i text".
  lemma OneReference(a: string, i: nat, b: string, arguments: seq<seq<Item>>)
    requires i < 9 && '$' !in a && '$' !in b && b != ""
    ensures var template := a + (Reference(i) + b);
            Complete(template) && Expanded(template, arguments) == Texts(a) + GivenArgument(arguments, i) + Texts(b)
  {
    hide Texts, Expanded, GivenArgument, Complete;
    TextLast(b, arguments);
    ReferenceFirst(i, b, arguments);
    TextFirst(a, Reference(i) + b, arguments);
    ThreeJoined(Texts(a), GivenArgument(arguments, i), Texts(b));
  }

  // A call of all arguments: "head$*)".
  lemma WholeList(head: string, arguments: seq<seq<Item>>)
    requires '$' !in head
    ensures var template := head + ("$*" + ")");
            Complete(template) && Expanded(template, arguments) == Texts(head) + Separated(arguments) + Texts(")")
  {
    hide Texts, Expanded, Separated, Complete;
    TextLast(")", arguments);
    ListFirst(")", arguments);
    TextFirst(head, "$*" + ")", arguments);
    ThreeJoined(Texts(head), Separated(arguments), Texts(")"));
  }

  // ---- Which template a name has ----

  const MAPPED := ["CONCAT", "LOCATE", "SUBSTRING", "SPACE", "LENGTH", "LCASE", "UCASE", "IFNULL"]

  // The name is the mapped one at `j`, in any letter case.
  predicate Named(name: string, j: nat)
    requires j < |MAPPED|
  {
    SameIgnoringCase(MAPPED[j], name)
  }

  lemma NamesApart(name: string, j: nat)
    requires j < |MAPPED| && Named(name, j)
    ensures forall k: nat :: k < |MAPPED| && Named(name, k) ==> k == j
  {
    forall k: nat | k < |MAPPED| && Named(name, k) ensures k == j {
      assert Lower(name[1]) == Lower(MAPPED[j][1]) == Lower(MAPPED[k][1]);
      assert Lower(name[0]) == Lower(MAPPED[j][0]) == Lower(MAPPED[k][0]);
    }
  }

  lemma NamedMeans(name: string)
    ensures Named(name, 0) <==> SameIgnoringCase("CONCAT", name)
    ensures Named(name, 1) <==> SameIgnoringCase("LOCATE", name)
    ensures Named(name, 2) <==> SameIgnoringCase("SUBSTRING", name)
    ensures Named(name, 3) <==> SameIgnoringCase("SPACE", name)
    ensures Named(name, 4) <==> SameIgnoringCase("LENGTH", name)
    ensures Named(name, 5) <==> SameIgnoringCase("LCASE", name)
    ensures Named(name, 6) <==> SameIgnoringCase("UCASE", name)
    ensures Named(name, 7) <==> SameIgnoringCase("IFNULL", name)
  {
    hide SameIgnoringCase;
  }

  lemma OnlyNamed(name: string, j: nat)
    requires j < |MAPPED| && Named(name, j)
    ensures SameIgnoringCase("CONCAT", name) <==> j == 0
    ensures SameIgnoringCase("LOCATE", name) <==> j == 1
    ensures SameIgnoringCase("SUBSTRING", name) <==> j == 2
    ensures SameIgnoringCase("SPACE", name) <==> j == 3
    ensures SameIgnoringCase("LENGTH", name) <==> j == 4
    ensures SameIgnoringCase("LCASE", name) <==> j == 5
    ensures SameIgnoringCase("UCASE", name) <==> j == 6
    ensures SameIgnoringCase("IFNULL", name) <==> j == 7
  {
    hide SameIgnoringCase, Named;
    NamesApart(name, j);
    NamedMeans(name);
  }

  // ---- The functions, in any letter case of their names ----

  /** CONCAT casts its two arguments to text. */
  lemma ConcatText(name: string, arguments: seq<seq<Item>>)
    requires Named(name, 0)
    ensures FunctionText(name, arguments)
            == Texts("concat(") + GivenArgument(arguments, 0) + Texts("::text, ") + GivenArgument(arguments, 1)
               + Texts("::text)")
  {
    hide Named, SameIgnoringCase, Texts, Expand, GivenArgument, JoinArguments, TwoShape, Complete;
    OnlyNamed(name, 0);
    assert '$' !in "::text)" && "::text)" != "";
    TextLast("::text)", arguments);
    TwoReferences("concat(", 0, "::text, ", 1, "::text)", arguments);
    ConcatShape();
  }

  lemma ConcatShape()
    ensures TwoShape("concat(", 0, "::text, ", 1, "::text)") == "concat($1::text, $2::text)"
  {
  }

  /** LOCATE of two arguments is strpos with the arguments the other way round. */
  lemma LocateText(name: string, arguments: seq<seq<Item>>)
    requires Named(name, 1) && |arguments| == 2
    ensures FunctionText(name, arguments)
            == Texts("strpos(") + arguments[1] + Texts(", ") + arguments[0] + Texts(")")
  {
    hide Named, SameIgnoringCase, Texts, Expand, JoinArguments, TwoShape, Complete;
    OnlyNamed(name, 1);
    TextLast(")", arguments);
    TwoReferences("strpos(", 1, ", ", 0, ")", arguments);
    LocateShape();
  }

  lemma LocateShape()
    ensures TwoShape("strpos(", 1, ", ", 0, ")") == "strpos($2, $1)"
  {
  }

  /** With a third argument it searches from there, and counts from the beginning again. */
  lemma LocateFromText(name: string, arguments: seq<seq<Item>>)
    requires Named(name, 1) && |arguments| == 3
    ensures FunctionText(name, arguments)
            == Texts("strpos(substring(") + arguments[1] + Texts(" from ") + arguments[2]
               + (Texts("), ") + arguments[0] + Texts(") + ") + arguments[2] + Texts(" - 1"))
  {
    hide Named, SameIgnoringCase, Texts, Expand, JoinArguments, TwoShape, Complete;
    OnlyNamed(name, 1);
    TextLast(" - 1", arguments);
    TwoReferences("), ", 0, ") + ", 2, " - 1", arguments);
    TwoReferences("strpos(substring(", 1, " from ", 2, TwoShape("), ", 0, ") + ", 2, " - 1"), arguments);
    LocateFromShape();
  }

  lemma LocateFromShape()
    ensures TwoShape("strpos(substring(", 1, " from ", 2, TwoShape("), ", 0, ") + ", 2, " - 1"))
            == "strpos(substring($2 from $3), $1) + $3 - 1"
  {
  }

  /** SPACE repeats a blank. */
  lemma SpaceText(name: string, arguments: seq<seq<Item>>)
    requires Named(name, 3)
    ensures FunctionText(name, arguments) == Texts("repeat(' ', ") + GivenArgument(arguments, 0) + Texts(")")
  {
    hide Named, SameIgnoringCase, Texts, Expand, GivenArgument, JoinArguments, Complete;
    OnlyNamed(name, 3);
    OneReference("repeat(' ', ", 0, ")", arguments);
    assert "repeat(' ', " + (Reference(0) + ")") == "repeat(' ', $1)";
  }

  /** The other mapped names only stand for another name, with all arguments in their order. */
  lemma RenamedText(name: string, j: nat, arguments: seq<seq<Item>>)
    requires j in {2, 4, 5, 6, 7} && Named(name, j)
    ensures FunctionText(name, arguments) == Texts(NewName(j) + "(") + Separated(arguments) + Texts(")")
  {
    hide Named, SameIgnoringCase, Texts, Expand, JoinArguments, Separated, Complete;
    OnlyNamed(name, j);
    NewNameShape(j);
    WholeList(NewName(j) + "(", arguments);
  }

  function NewName(j: nat): string {
    if j == 2 then "substr"
    else if j == 4 then "char_length"
    else if j == 5 then "lower"
    else if j == 6 then "upper"
    else "coalesce"
  }

  lemma NewNameShape(j: nat)
    ensures '$' !in NewName(j) + "("
    ensures NewName(j) + "(" + ("$*" + ")")
            == if j == 2 then "substr($*)" else if j == 4 then "char_length($*)" else if j == 5 then "lower($*)"
               else if j == 6 then "upper($*)" else "coalesce($*)"
  {
  }

  lemma NoTemplateFor(name: string, count: nat)
    requires forall j: nat :: j < |MAPPED| && Named(name, j) ==> j == 1 && count !in {2, 3}
    ensures FindFunctionTemplate(name, count) == NoTemplate
  {
    hide SameIgnoringCase, Named;
    NamedMeans(name);
  }

  /** Any other name, and LOCATE with any other number of arguments, is called as it is written. */
  lemma UnmappedText(name: string, arguments: seq<seq<Item>>)
    requires forall j: nat :: j < |MAPPED| && Named(name, j) ==> j == 1 && |arguments| !in {2, 3}
    ensures FunctionText(name, arguments) == Texts(name) + Texts("(") + Separated(arguments) + Texts(")")
  {
    hide Named, FindFunctionTemplate, Texts, Expand, JoinArguments, Separated;
    NoTemplateFor(name, |arguments|);
    JoinIsSeparated(arguments);
  }
}
