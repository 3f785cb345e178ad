/**
 The scanner itself: a cursor over the input with an output, a lexical state and the count of the
 markers consumed, stepped by mutually recursive escape handlers.
 */
module QueryScanner {
  import opened Ascii
  import opened EscapeModel
  import opened LexerAgreement
  import opened ScannerModel
  import opened SqlLexer
  import opened StatementSplitter

  class Scanner {
    const input: string
    const standardConformingStrings: bool
    var inputIndex: nat
    var output: seq<Item>
    var state: ScanState
    var blockCommentDepth: nat
    var paramNumber: nat
    var isProcedureCall: bool
    var returnValueCount: nat
    var parameterRoles: seq<Role>
    var procedureName: string
    var callArguments: seq<CallArgument>
    ghost var consumed: seq<nat>  // positions of the '?' consumed as markers, in order

    ghost predicate Valid()
      reads this
    {
      && inputIndex <= |input| && |parameterRoles| == QUERY_MAX_PARAMETERS && paramNumber == |consumed|
      && (state == IN_BLOCK_COMMENT ==> blockCommentDepth > 0)
    }

    ghost function View(): Scan
      reads this
    {
      Scan(inputIndex, output, Lexed(), consumed,
           Call(isProcedureCall, returnValueCount, parameterRoles, procedureName, callArguments))
    }

    ghost function Lexed(): LexState
      reads this
    {
      Lexical(state, blockCommentDepth)
    }

    function Remaining(): nat
      reads this
    {
      if inputIndex <= |input| then |input| - inputIndex else 0
    }

    constructor (input: string, standardConformingStrings: bool)
      ensures Valid() && this.input == input && this.standardConformingStrings == standardConformingStrings
      ensures View() == Started()
    {
      this.input, this.standardConformingStrings := input, standardConformingStrings;
      inputIndex, output, state, blockCommentDepth, paramNumber := 0, [], NORMAL, 0, 0;
      isProcedureCall, returnValueCount, procedureName, callArguments := false, 0, "", [];
      parameterRoles := seq(QUERY_MAX_PARAMETERS, _ => Role.Input);
      consumed := [];
    }

    method Emit(items: seq<Item>)
      requires Valid()
      modifies this`output
      ensures Valid() && output == old(output) + items
    {
      output := output + items;
    }

    method EmitText(text: string)
      requires Valid()
      modifies this`output
      ensures Valid() && output == old(output) + Texts(text)
    {
      Emit(Texts(text));
    }

    // Takes the '?' at the current position as the next marker.
    method ConsumeMarker(role: Role)
      requires Valid() && At(input, inputIndex, '?')
      modifies this`paramNumber, this`parameterRoles, this`inputIndex, this`consumed
      ensures Valid() && inputIndex == old(inputIndex) + 1 && consumed == old(consumed) + [old(inputIndex)]
      ensures parameterRoles == WithRole(old(parameterRoles), old(paramNumber), role)
    {
      if paramNumber < QUERY_MAX_PARAMETERS {
        parameterRoles := parameterRoles[paramNumber := role];
      }
      paramNumber := paramNumber + 1;
      consumed := consumed + [inputIndex];
      inputIndex := inputIndex + 1;
    }

    method Skip(count: nat)
      requires Valid() && inputIndex + count <= |input|
      modifies this`inputIndex
      ensures Valid() && inputIndex == old(inputIndex) + count
    {
      inputIndex := inputIndex + count;
    }

    method SkipInputWhitespace()
      requires Valid()
      modifies this`inputIndex
      ensures Valid() && inputIndex == BlankEnd(input, old(inputIndex))
    {
      while inputIndex < |input| && Blank(input[inputIndex])
        invariant Valid() && BlankEnd(input, inputIndex) == BlankEnd(input, old(inputIndex))
      {
        Skip(1);
      }
    }

    method SkipBehindBrace()
      requires Valid()
      modifies this`inputIndex
      ensures Valid() && inputIndex == BehindBrace(input, old(inputIndex))
    {
      while inputIndex < |input| && input[inputIndex] != '}'
        invariant Valid() && BraceAt(input, inputIndex) == BraceAt(input, old(inputIndex))
      {
        Skip(1);
      }
      if inputIndex < |input| {
        Skip(1);
      }
    }

    // ---- {fn NAME(...)} ----

    /**
     Captures the transformed arguments of a function call. On every exit the output is what it
     was before; `count` is -1 when there is no call here or it has too many arguments.
     */
    method CollectFunctionArguments(maxArguments: nat) returns (count: int, arguments: seq<seq<Item>>)
      requires Valid()
      modifies this
      ensures Valid() && output == old(output)
      ensures !At(input, old(inputIndex), '(') ==> count == -1 && View() == old(View())
      ensures At(input, old(inputIndex), '(') ==>
                var c := CollectCall(input, standardConformingStrings, old(View()), maxArguments);
                && View() == c.scan && count == (if c.arguments.Some? then |c.arguments.value| else -1)
                && (c.arguments.Some? ==> arguments == c.arguments.value)
      decreases Remaining(), 2
    {
      hide Collect;
      arguments := [];
      if inputIndex >= |input| || input[inputIndex] != '(' {
        count := -1;
        return;
      }
      var savedOutput := output;
      Skip(1);
      output := [];
      var complete;
      complete, arguments := CollectUntilClosed(maxArguments);
      output := savedOutput;
      count := if complete then |arguments| else -1;
    }

    // The arguments up to the ')' that closes the call; the output serves as their buffer.
    method CollectUntilClosed(maxArguments: nat) returns (complete: bool, arguments: seq<seq<Item>>)
      requires Valid() && output == []
      modifies this
      ensures Valid()
      ensures var c := Collect(input, standardConformingStrings, old(View()), 1, [], false, maxArguments);
              && View() == c.scan && complete == c.arguments.Some?
              && (complete ==> arguments == c.arguments.value)
      decreases Remaining(), 10
    {
      hide Collect, EscapeModel.Step, Texts, AllCollected;
      var parenDepth: nat, hasContent := 1, false;
      ghost var scs := standardConformingStrings;
      ghost var whole := Collect(input, scs, View(), 1, [], false, maxArguments);
      arguments := [];
      while inputIndex < |input|
        invariant Valid() && parenDepth >= 1
        invariant Collect(input, scs, View(), parenDepth, arguments, hasContent, maxArguments) == whole
        decreases Remaining()
      {
        CollectHere(input, scs, View(), parenDepth, arguments, hasContent, maxArguments);
        var character := input[inputIndex];
        if state == NORMAL && character == '(' {
          parenDepth := parenDepth + 1;
          EmitText([character]);
          Skip(1);
        } else if state == NORMAL && character == ')' {
          parenDepth := parenDepth - 1;
          if parenDepth == 0 {
            Skip(1);
            complete, arguments := FinishArguments(arguments, hasContent, maxArguments);
            return;
          }
          EmitText([character]);
          Skip(1);
        } else if state == NORMAL && character == ',' && parenDepth == 1 {
          if |arguments| >= maxArguments {
            return false, [];
          }
          arguments := arguments + [output];
          output := [];
          hasContent := false;
          Skip(1);
        } else {
          if state == NORMAL && character != ' ' && character != '\t' {
            hasContent := true;
          }
          ScanStep();
        }
      }
      CollectHere(input, scs, View(), parenDepth, arguments, hasContent, maxArguments);
      complete, arguments := FinishArguments(arguments, hasContent, maxArguments);
    }

    // The last argument, unless the list is empty.
    method FinishArguments(collected: seq<seq<Item>>, hasContent: bool, maxArguments: nat)
      returns (complete: bool, arguments: seq<seq<Item>>)
      ensures var c := AllCollected(View(), collected, hasContent, maxArguments);
              && c.scan == View() && complete == c.arguments.Some?
              && (complete ==> arguments == c.arguments.value)
    {
      if |collected| >= maxArguments {
        return false, [];
      }
      if collected == [] && !hasContent {
        return true, [];
      }
      return true, collected + [output];
    }

    method EmitJoined(arguments: seq<seq<Item>>)
      requires Valid()
      modifies this`output
      ensures Valid() && output == old(output) + JoinArguments(arguments)
    {
      var i := 0;
      while i < |arguments|
        invariant 0 <= i <= |arguments| && Valid()
        invariant output == old(output) + JoinArguments(arguments[..i])
      {
        assert arguments[..i + 1][..i] == arguments[..i];
        if i > 0 {
          EmitText(", ");
        }
        Emit(arguments[i]);
        i := i + 1;
      }
      assert arguments[..i] == arguments;
    }

    method EmitFunctionTemplate(template: string, arguments: seq<seq<Item>>)
      requires Valid() && (template == [] || template[|template| - 1] != '$')
      modifies this`output
      ensures Valid() && output == old(output) + Expand(template, 0, arguments)
    {
      hide Expand, ExpandAt;
      var cursor := 0;
      while cursor < |template|
        invariant 0 <= cursor <= |template| && Valid()
        invariant output + Expand(template, cursor, arguments) == old(output) + Expand(template, 0, arguments)
      {
        ExpandStep(output, template, cursor, arguments);
        EmitTemplateElement(template, cursor, arguments);
        cursor := cursor + if template[cursor] == '$' then 2 else 1;
      }
      ExpandEnds(output, template, arguments);
    }

    method EmitTemplateElement(template: string, cursor: nat, arguments: seq<seq<Item>>)
      requires Valid() && cursor < |template| && template[|template| - 1] != '$'
      modifies this`output
      ensures Valid() && output == old(output) + ExpandAt(template, cursor, arguments)
    {
      if template[cursor] != '$' {
        Emit([Text(template[cursor])]);
        return;
      }
      var placeholder := template[cursor + 1];
      if placeholder == '*' {
        EmitJoined(arguments);
      } else if '1' <= placeholder <= '9' {
        var index := placeholder as int - '1' as int;
        if index < |arguments| {
          Emit(arguments[index]);
        }
      } else {
        Emit([Text('$'), Text(placeholder)]);
      }
    }

    method ReadName(limit: nat, stop: set<char>) returns (name: string)
      requires Valid()
      modifies this`inputIndex
      ensures Valid() && inputIndex == NameEnd(input, old(inputIndex), limit, stop)
      ensures old(inputIndex) <= inputIndex && name == input[old(inputIndex)..inputIndex]
    {
      hide NameEnd;
      name := "";
      ghost var start := inputIndex;
      while inputIndex < |input| && |name| < limit && input[inputIndex] !in stop
        invariant Valid() && start <= inputIndex && |name| <= limit && name == input[start..inputIndex]
        invariant NameEnd(input, inputIndex, limit - |name|, stop) == NameEnd(input, start, limit, stop)
      {
        NameStep(input, inputIndex, limit - |name|, stop);
        SliceLonger(input, start, inputIndex);
        name := name + [input[inputIndex]];
        Skip(1);
      }
      NameStep(input, inputIndex, limit - |name|, stop);
    }

    method HandleFunctionEscape()
      requires Valid()
      modifies this
      ensures Valid() && View() == FunctionEscaped(input, standardConformingStrings, old(View()))
      decreases Remaining(), 3
    {
      hide CollectCall, NameEnd, BlankEnd, FunctionText, FunctionEscaped, FunctionClosed, BehindBrace, Texts;
      FunctionCases(input, standardConformingStrings, View());
      var name := ReadFunctionName();
      if inputIndex >= |input| || input[inputIndex] != '(' {
        EmitText(name);
        SkipBehindBrace();
        return;
      }
      var count, arguments := CollectFunctionArguments(MAX_FN_ARGUMENTS);
      if count < 0 {
        return;
      }
      CloseFunction(name, arguments);
    }

    // The name, with the blanks around it.
    method ReadFunctionName() returns (name: string)
      requires Valid()
      modifies this`inputIndex
      ensures Valid()
      ensures var start := BlankEnd(input, old(inputIndex));
              var nameEnd := NameEnd(input, start, MAX_FN_NAME, FN_NAME_STOP);
              inputIndex == BlankEnd(input, nameEnd) && name == input[start..nameEnd]
    {
      hide NameEnd, BlankEnd;
      SkipInputWhitespace();
      name := ReadName(MAX_FN_NAME, FN_NAME_STOP);
      SkipInputWhitespace();
    }

    // Writes the expanded call and consumes the '}' behind it.
    method CloseFunction(name: string, arguments: seq<seq<Item>>)
      requires Valid()
      modifies this`inputIndex, this`output
      ensures Valid() && View() == FunctionClosed(input, old(View()), FunctionText(name, arguments))
    {
      hide BlankEnd, FunctionText;
      EmitFunction(name, arguments);
      SkipInputWhitespace();
      if inputIndex < |input| && input[inputIndex] == '}' {
        Skip(1);
      }
    }

    method EmitFunction(name: string, arguments: seq<seq<Item>>)
      requires Valid()
      modifies this`output
      ensures Valid() && output == old(output) + FunctionText(name, arguments)
    {
      hide JoinArguments, Expand, Texts, FindFunctionTemplate;
      match FindFunctionTemplate(name, |arguments|)
      case Template(text) => EmitFunctionTemplate(text, arguments);
      case NoTemplate =>
        CallJoined(output, Texts(name), Texts("("), JoinArguments(arguments), Texts(")"));
        EmitText(name);
        EmitText("(");
        EmitJoined(arguments);
        EmitText(")");
    }

    // ---- {d ...}, {t ...}, {ts ...}, {escape ...}, {oj ...} ----

    method HandleDatetimeEscape(castSuffix: string)
      requires Valid()
      modifies this`inputIndex, this`output
      ensures Valid()
      ensures var body := BlankEnd(input, old(inputIndex));
              && inputIndex == BehindBrace(input, body)
              && output == old(output) + Texts(DatetimeBody(input, body) + castSuffix)
    {
      hide Texts, DatetimeBody;
      SkipInputWhitespace();
      ghost var body := inputIndex;
      CopyDatetimeBody();
      TextsJoined(DatetimeBody(input, body), castSuffix);
      EmitText(castSuffix);
      if inputIndex < |input| && input[inputIndex] == '}' {
        Skip(1);
      }
    }

    method CopyDatetimeBody()
      requires Valid()
      modifies this`inputIndex, this`output
      ensures Valid() && inputIndex == BraceAt(input, old(inputIndex))
      ensures output == old(output) + Texts(DatetimeBody(input, old(inputIndex)))
    {
      hide Texts, DatetimeBody, BraceAt, PadEnd, DatetimeCopied;
      ghost var start, before := inputIndex, output;
      DatetimeBegins(input, start, before);
      while inputIndex < |input| && input[inputIndex] != '}'
        invariant Valid() && DatetimeCopied(input, start, inputIndex, before, output)
      {
        DatetimeStep(input, start, inputIndex, before, output);
        var look := LookBehindPadding();
        if look < |input| && input[look] == '}' {
          Skip(look - inputIndex);
          return;
        }
        EmitText([input[inputIndex]]);
        Skip(1);
      }
      DatetimeEnds(input, start, inputIndex, before, output);
    }

    method LookBehindPadding() returns (look: nat)
      requires Valid()
      ensures inputIndex <= look == PadEnd(input, inputIndex) <= |input|
    {
      look := inputIndex;
      while look < |input| && (input[look] == ' ' || input[look] == '\t')
        invariant inputIndex <= look <= |input| && PadEnd(input, look) == PadEnd(input, inputIndex)
      {
        look := look + 1;
      }
    }

    method HandleLikeEscape()
      requires Valid()
      modifies this`inputIndex, this`output
      ensures Valid()
      ensures var body := BlankEnd(input, old(inputIndex));
              && inputIndex == BehindBrace(input, body)
              && output == old(output) + Texts("ESCAPE " + input[body..BraceAt(input, body)])
    {
      hide Texts, BlankEnd, BraceAt, BehindBrace, LikeCopied;
      SkipInputWhitespace();
      ghost var start, before := inputIndex, output;
      EmitText("ESCAPE ");
      LikeBegins(input, start, before);
      while inputIndex < |input| && input[inputIndex] != '}'
        invariant Valid() && LikeCopied(input, start, inputIndex, before, output)
      {
        LikeStep(input, start, inputIndex, before, output);
        EmitText([input[inputIndex]]);
        Skip(1);
      }
      LikeEnds(input, start, inputIndex, before, output);
      if inputIndex < |input| {
        Skip(1);
      }
    }

    // Transforms the body of an escape up to and including the '}' that ends it.
    method CopyEscapeBody()
      requires Valid()
      modifies this
      ensures Valid() && View() == CopyBody(input, standardConformingStrings, old(View()))
      decreases Remaining(), 8
    {
      hide EscapeModel.Step;
      ghost var scs := standardConformingStrings;
      ghost var whole := CopyBody(input, scs, View());
      while inputIndex < |input|
        invariant Valid() && CopyBody(input, scs, View()) == whole
        decreases Remaining()
      {
        if state == NORMAL && input[inputIndex] == '}' {
          Skip(1);
          return;
        }
        ScanStep();
      }
    }

    method HandleOuterJoinEscape()
      requires Valid()
      modifies this
      ensures Valid()
      ensures View() == CopyBody(input, standardConformingStrings, old(View()).(at := BlankEnd(input, old(inputIndex))))
      decreases Remaining(), 9
    {
      hide CopyBody;
      SkipInputWhitespace();
      CopyEscapeBody();
    }

    // ---- {call ...} ----

    method ReadCast() returns (cast: string)
      requires Valid()
      modifies this`inputIndex
      ensures Valid() && cast == CastAt(input, old(inputIndex)) && inputIndex == old(inputIndex) + |cast|
    {
      hide CastSoFar;
      cast := "";
      if inputIndex + 1 < |input| && input[inputIndex] == ':' && input[inputIndex + 1] == ':' {
        ghost var start := inputIndex;
        cast := "::";
        Skip(2);
        CastBegins(input, start);
        while inputIndex < |input| && |cast| < QUERY_MAX_CAST_LENGTH - 1 && IdentifierPart(input[inputIndex])
          invariant Valid() && CastSoFar(input, start, inputIndex, cast)
        {
          CastStep(input, start, inputIndex, cast);
          cast := cast + [input[inputIndex]];
          Skip(1);
        }
        CastEnds(input, start, inputIndex, cast);
      }
    }

    // Copies a literal argument up to the next top-level ',' or ')', as far as its buffer reaches.
    method ReadLiteral(depth: nat) returns (literal: string, parenDepth: nat)
      requires Valid() && depth >= 1 && inputIndex < |input| && input[inputIndex] !in {',', ')'}
      modifies this`inputIndex
      ensures Valid() && old(inputIndex) < inputIndex && parenDepth >= 1
      ensures (inputIndex, parenDepth as int) == LiteralEnd(input, old(inputIndex), QUERY_MAX_CALL_LITERAL - 1, depth)
      ensures literal == TrimPadding(input[old(inputIndex)..inputIndex])
    {
      hide LiteralSoFar, TrimPadding, LiteralEnd;
      ghost var start := inputIndex;
      literal, parenDepth := "", depth;
      LiteralBegins(input, start, depth);
      while inputIndex < |input| && |literal| < QUERY_MAX_CALL_LITERAL - 1
        invariant Valid() && parenDepth >= 1 && LiteralSoFar(input, start, depth, inputIndex, literal, parenDepth)
      {
        ghost var open := parenDepth;
        var character := input[inputIndex];
        if character == '(' {
          parenDepth := parenDepth + 1;
        } else if character == ')' {
          if parenDepth == 1 {
            break;
          }
          parenDepth := parenDepth - 1;
        } else if character == ',' && parenDepth == 1 {
          break;
        }
        LiteralStep(input, start, depth, inputIndex, literal, open);
        literal := literal + [character];
        Skip(1);
      }
      LiteralEnds(input, start, depth, inputIndex, literal, parenDepth);
      literal := TrimLiteral(literal);
    }

    method TrimLiteral(literal: string) returns (trimmed: string)
      ensures trimmed == TrimPadding(literal)
    {
      trimmed := literal;
      while trimmed != "" && (trimmed[|trimmed| - 1] == ' ' || trimmed[|trimmed| - 1] == '\t')
        invariant TrimPadding(trimmed) == TrimPadding(literal)
        decreases |trimmed|
      {
        trimmed := trimmed[..|trimmed| - 1];
      }
    }

    method ParseCallArgument(depth: nat) returns (argument: CallArgument, parenDepth: nat)
      requires Valid() && depth >= 1 && inputIndex < |input| && input[inputIndex] !in {',', ')'}
      modifies this`inputIndex, this`paramNumber, this`parameterRoles, this`consumed
      ensures Valid() && old(inputIndex) < inputIndex && parenDepth >= 1
      ensures (argument, inputIndex, parenDepth) == ArgumentAt(input, old(inputIndex), depth, old(paramNumber))
      ensures consumed == if MarkerAt(input, old(inputIndex)) then old(consumed) + [old(inputIndex)] else old(consumed)
      ensures parameterRoles == if MarkerAt(input, old(inputIndex))
                                then WithRole(old(parameterRoles), old(paramNumber), Role.Input)
                                else old(parameterRoles)
    {
      hide TrimPadding, LiteralEnd, CastAt;
      if input[inputIndex] == '?' && !(inputIndex + 1 < |input| && input[inputIndex + 1] == '?') {
        ConsumeMarker(Role.Input);
        SkipInputWhitespace();
        var cast := ReadCast();
        return CallArgument(paramNumber, cast, ""), depth;
      }
      var literal, depth' := ReadLiteral(depth);
      return CallArgument(0, "", literal), depth';
    }

    // Ends where the list ends, with its arguments recorded and its markers consumed.
    method ParseCallArguments()
      requires Valid()
      modifies this`inputIndex, this`paramNumber, this`parameterRoles, this`consumed, this`callArguments
      ensures Valid()
      ensures CallList(inputIndex, callArguments, consumed)
              == ReadArguments(input, old(inputIndex), 1, old(callArguments), old(consumed))
      ensures parameterRoles == WithInputs(old(parameterRoles), old(paramNumber), paramNumber)
      ensures old(paramNumber) <= paramNumber
    {
      hide ArgumentAt, Recorded, ReadArguments, BlankEnd, MarkerAt, WithRole, WithInputs, Listing;
      var parenDepth: nat := 1;
      ghost var from := ListStart(inputIndex, callArguments, consumed, parameterRoles);
      ListingBegins(input, from);
      while inputIndex < |input|
        invariant Valid() && Listing(input, from, inputIndex, parenDepth, callArguments, consumed, parameterRoles)
        invariant parenDepth >= 1
        decreases Remaining()
      {
        ListingBlanks(input, from, inputIndex, parenDepth, callArguments, consumed, parameterRoles);
        SkipInputWhitespace();
        if inputIndex >= |input| {
          ListingEnds(input, from, inputIndex, parenDepth, callArguments, consumed, parameterRoles);
          return;
        }
        if input[inputIndex] == ')' {
          ListingEnds(input, from, inputIndex, parenDepth, callArguments, consumed, parameterRoles);
          Skip(1);
          return;
        }
        if input[inputIndex] == ',' {
          ListingComma(input, from, inputIndex, parenDepth, callArguments, consumed, parameterRoles);
          Skip(1);
          continue;
        }
        ListingArgument(input, from, inputIndex, parenDepth, callArguments, consumed, parameterRoles);
        parenDepth := AppendCallArgument(parenDepth);
        SkipInputWhitespace();
        if inputIndex < |input| && input[inputIndex] == ',' {
          Skip(1);
        }
      }
      ListingBlanks(input, from, inputIndex, parenDepth, callArguments, consumed, parameterRoles);
      NoBlanksAtEnd(input);
      ListingEnds(input, from, inputIndex, parenDepth, callArguments, consumed, parameterRoles);
    }

    method AppendCallArgument(depth: nat) returns (parenDepth: nat)
      requires Valid() && depth >= 1 && inputIndex < |input| && input[inputIndex] !in {',', ')'}
      modifies this`inputIndex, this`paramNumber, this`parameterRoles, this`consumed, this`callArguments
      ensures Valid() && old(inputIndex) < inputIndex && parenDepth >= 1
      ensures var (argument, end, depth') := ArgumentAt(input, old(inputIndex), depth, old(paramNumber));
              && inputIndex == end && parenDepth == depth'
              && callArguments == Recorded(old(callArguments), argument)
      ensures consumed == if MarkerAt(input, old(inputIndex)) then old(consumed) + [old(inputIndex)] else old(consumed)
      ensures parameterRoles == if MarkerAt(input, old(inputIndex))
                                then WithRole(old(parameterRoles), old(paramNumber), Role.Input)
                                else old(parameterRoles)
    {
      hide ArgumentAt, MarkerAt;
      var argument, after := ParseCallArgument(depth);
      parenDepth := after;
      if |callArguments| < QUERY_MAX_CALL_ARGUMENTS {
        callArguments := callArguments + [argument];
      }
    }

    // The optional "? =" that captures the result of a function.
    method ReadReturnValue()
      requires Valid()
      modifies this`inputIndex, this`paramNumber, this`parameterRoles, this`consumed, this`returnValueCount
      ensures Valid() && inputIndex == ReturnValueEnd(input, old(inputIndex))
      ensures if At(input, old(inputIndex), '?') then
                && returnValueCount == old(returnValueCount) + 1 && consumed == old(consumed) + [old(inputIndex)]
                && parameterRoles == WithRole(old(parameterRoles), old(paramNumber), ReturnValue)
              else
                && returnValueCount == old(returnValueCount) && consumed == old(consumed)
                && parameterRoles == old(parameterRoles)
    {
      if inputIndex < |input| && input[inputIndex] == '?' {
        ConsumeMarker(ReturnValue);
        returnValueCount := returnValueCount + 1;
        SkipInputWhitespace();
        if inputIndex < |input| && input[inputIndex] == '=' {
          Skip(1);
        }
        SkipInputWhitespace();
      }
    }

    method EmitCallHead()
      requires Valid()
      modifies this`inputIndex, this`output, this`procedureName
      ensures Valid() && inputIndex == CallOpen(input, old(inputIndex))
      ensures procedureName == ProcedureName(input, old(inputIndex))
      ensures output == old(output) + Texts(CallHead(returnValueCount) + procedureName)
    {
      hide Texts;
      if KeywordAt(input, inputIndex, "call") {
        Skip(4);
      }
      SkipInputWhitespace();
      procedureName := ReadName(MAX_CALL_NAME, CALL_NAME_STOP);
      SkipInputWhitespace();
      EmitText(CallHead(returnValueCount) + procedureName);
    }

    // A call leaves only "SELECT" and the name; its markers go into the parsed arguments.
    method HandleCallEscape()
      requires Valid()
      modifies this
      ensures Valid() && View() == Called(input, old(View()))
    {
      hide Texts, ProcedureName, ReadArguments, ReturnValueEnd, CallOpen, BehindBrace, WithInputs, WithRole, CallHead;
      hide Called, CallOf;
      ghost var before := View();
      isProcedureCall := true;
      ReadReturnValue();
      ghost var behind, counted := inputIndex, consumed;
      EmitCallHead();
      ghost var open := inputIndex;
      assert open == CallOpen(input, behind);
      ReadCallList();
      ghost var list := CallList(inputIndex, callArguments, consumed);
      CallReadOn(input, before, counted, open, list);
      SkipBehindBrace();
      CallFinished(input, before, View());
    }

    method ReadCallList()
      requires Valid()
      modifies this`inputIndex, this`paramNumber, this`parameterRoles, this`consumed, this`callArguments
      ensures Valid()
      ensures CallList(inputIndex, callArguments, consumed) ==
              if At(input, old(inputIndex), '(') then
                ReadArguments(input, old(inputIndex) + 1, 1, old(callArguments), old(consumed))
              else CallList(old(inputIndex), old(callArguments), old(consumed))
      ensures parameterRoles == WithInputs(old(parameterRoles), old(paramNumber), paramNumber)
    {
      hide ReadArguments, WithInputs;
      NoInputs(parameterRoles, paramNumber);
      if inputIndex < |input| && input[inputIndex] == '(' {
        Skip(1);
        ParseCallArguments();
      }
    }

    // ---- Which escape ----

    // The escape whose keyword has just been consumed.
    method HandleEscape(escape: Escape)
      requires Valid() && !escape.NoEscape?
      modifies this
      ensures Valid() && View() == Escaped(input, standardConformingStrings, old(View()), escape)
      decreases Remaining(), 20
    {
      hide FunctionEscaped, CopyBody, Called, BehindBrace, DatetimeBody, BraceAt, BlankEnd;
      match escape
      case FunctionEscape => HandleFunctionEscape();
      case DatetimeEscape(castSuffix) => HandleDatetimeEscape(castSuffix);
      case OuterJoinEscape => HandleOuterJoinEscape();
      case LikeEscape => HandleLikeEscape();
      case CallEscape => HandleCallEscape();
    }

    method HandleOpenBrace()
      requires Valid() && At(input, inputIndex, '{')
      modifies this
      ensures Valid() && View() == OpenBrace(input, standardConformingStrings, old(View()))
      decreases Remaining(), 6
    {
      hide EscapeAt, KeywordLength, PadEnd, Escaped;
      var keywordIndex := SkipPadding(inputIndex + 1);
      EscapeFits(input, keywordIndex);
      var escape := EscapeAt(input, keywordIndex);
      if escape.NoEscape? {
        EmitText("{");
        Skip(1);
        return;
      }
      Skip(keywordIndex + KeywordLength(escape) - inputIndex);
      HandleEscape(escape);
    }

    method SkipPadding(from: nat) returns (index: nat)
      requires from <= |input|
      ensures index == PadEnd(input, from)
    {
      index := from;
      while index < |input| && (input[index] == ' ' || input[index] == '\t')
        invariant from <= index <= |input| && PadEnd(input, index) == PadEnd(input, from)
      {
        index := index + 1;
      }
    }

    // ---- Units that are not rewritten ----

    // Copies the text up to `end` and goes on in the given state.
    method CopyUnit(end: nat, next: ScanState)
      requires Valid() && inputIndex <= end <= |input|
      requires next == IN_BLOCK_COMMENT ==> blockCommentDepth > 0
      modifies this`inputIndex, this`output, this`state
      ensures Valid() && inputIndex == end && state == next
      ensures output == old(output) + Texts(input[old(inputIndex)..end])
    {
      EmitText(input[inputIndex..end]);
      Skip(end - inputIndex);
      state := next;
    }

    // A '?' outside literals and comments: a marker, or half of the escape "??".
    method ScanMark()
      requires Valid() && state == NORMAL && At(input, inputIndex, '?')
      modifies this`inputIndex, this`output, this`paramNumber, this`parameterRoles, this`consumed
      ensures Valid()
      ensures if PairAt(input, old(inputIndex)) then
                && inputIndex == old(inputIndex) + 2 && output == old(output) + [Question]
                && consumed == old(consumed) && parameterRoles == old(parameterRoles)
              else
                && inputIndex == old(inputIndex) + 1 && consumed == old(consumed) + [old(inputIndex)]
                && output == old(output) + [Marker(old(paramNumber) + 1, old(inputIndex))]
                && parameterRoles == WithRole(old(parameterRoles), old(paramNumber), Role.Input)
    {
      if inputIndex + 1 < |input| && input[inputIndex + 1] == '?' {
        Emit([Question]);
        Skip(2);
      } else {
        ConsumeMarker(Role.Input);
        Emit([Marker(paramNumber, inputIndex - 1)]);
      }
    }

    method ScanNormal()
      requires Valid() && state == NORMAL && inputIndex < |input| && input[inputIndex] != '?'
      modifies this`inputIndex, this`output, this`state, this`blockCommentDepth
      ensures Valid()
      ensures var u := NormalUnit(input, old(inputIndex), CanOpenAfter(old(output)));
              && inputIndex == u.end && Lexed() == u.state
              && output == old(output) + Texts(input[old(inputIndex)..u.end])
    {
      hide Texts, TagLength, CanOpenAfter;
      var current := input[inputIndex];
      if (current == 'E' || current == 'e') && inputIndex + 1 < |input| && input[inputIndex + 1] == '\'' {
        CopyUnit(inputIndex + 2, IN_ESCAPE_STRING);
      } else if current == '$' && CanOpenAfter(output) {
        var tagLength := MatchDollarQuoteOpen(input, inputIndex);
        if tagLength > 0 {
          var end := SkipDollarBody(input, inputIndex, tagLength);
          CopyUnit(end, NORMAL);
        } else {
          CopyUnit(inputIndex + 1, NORMAL);
        }
      } else if current == '\'' {
        CopyUnit(inputIndex + 1, IN_SINGLE_QUOTE);
      } else if current == '"' {
        CopyUnit(inputIndex + 1, IN_DOUBLE_QUOTE);
      } else if current == '-' && inputIndex + 1 < |input| && input[inputIndex + 1] == '-' {
        CopyUnit(inputIndex + 2, IN_LINE_COMMENT);
      } else if current == '/' && inputIndex + 1 < |input| && input[inputIndex + 1] == '*' {
        blockCommentDepth := 1;
        CopyUnit(inputIndex + 2, IN_BLOCK_COMMENT);
      } else {
        CopyUnit(inputIndex + 1, NORMAL);
      }
    }

    method ScanQuoted(quote: char, backslash: bool)
      requires Valid() && state !in {NORMAL, IN_BLOCK_COMMENT} && inputIndex < |input|
      modifies this`inputIndex, this`output, this`state
      ensures Valid()
      ensures var u := QuotedUnit(input, old(inputIndex), old(Lexed()), quote, backslash);
              && inputIndex == u.end && Lexed() == u.state
              && output == old(output) + Texts(input[old(inputIndex)..u.end])
    {
      hide Texts;
      var current := input[inputIndex];
      if current == '\\' && backslash && inputIndex + 1 < |input| {
        CopyUnit(inputIndex + 2, state);
      } else if current == quote && inputIndex + 1 < |input| && input[inputIndex + 1] == quote {
        CopyUnit(inputIndex + 2, state);
      } else if current == quote {
        CopyUnit(inputIndex + 1, NORMAL);
      } else {
        CopyUnit(inputIndex + 1, state);
      }
    }

    method ScanBlockComment()
      requires Valid() && state == IN_BLOCK_COMMENT && inputIndex < |input|
      modifies this`inputIndex, this`output, this`state, this`blockCommentDepth
      ensures Valid()
      ensures var u := BlockCommentUnit(input, old(inputIndex), old(blockCommentDepth));
              && inputIndex == u.end && Lexed() == u.state
              && output == old(output) + Texts(input[old(inputIndex)..u.end])
    {
      hide Texts;
      if input[inputIndex] == '/' && inputIndex + 1 < |input| && input[inputIndex + 1] == '*' {
        blockCommentDepth := blockCommentDepth + 1;
        CopyUnit(inputIndex + 2, IN_BLOCK_COMMENT);
      } else if input[inputIndex] == '*' && inputIndex + 1 < |input| && input[inputIndex + 1] == '/' {
        var depth := blockCommentDepth - 1;
        CopyUnit(inputIndex + 2, if depth == 0 then NORMAL else IN_BLOCK_COMMENT);
        blockCommentDepth := depth;
      } else {
        CopyUnit(inputIndex + 1, IN_BLOCK_COMMENT);
      }
    }

    // Text outside braces: one lexical unit, which the output copies unless it is a '?'.
    method ScanPlain()
      requires Valid() && inputIndex < |input|
      modifies this`inputIndex, this`output, this`state, this`blockCommentDepth
      modifies this`paramNumber, this`parameterRoles, this`consumed
      ensures Valid() && View() == PlainStep(input, standardConformingStrings, old(View()))
    {
      hide Texts, CanOpenAfter, QuotedUnit, BlockCommentUnit, NormalUnit, WithRole, PlainStep;
      if state == NORMAL && input[inputIndex] == '?' {
        MarkUnit(input, standardConformingStrings, View());
        ScanMark();
        return;
      }
      CopiedUnit(input, standardConformingStrings, View());
      match state
      case NORMAL => ScanNormal();
      case IN_SINGLE_QUOTE => ScanQuoted('\'', !standardConformingStrings);
      case IN_ESCAPE_STRING => ScanQuoted('\'', true);
      case IN_DOUBLE_QUOTE => ScanQuoted('"', false);
      case IN_LINE_COMMENT => CopyUnit(inputIndex + 1, if input[inputIndex] == '\n' then NORMAL else IN_LINE_COMMENT);
      case IN_BLOCK_COMMENT => ScanBlockComment();
    }

    // ---- INSERT ... () VALUES () ----

    method SkipBlanks(from: nat) returns (index: nat)
      requires from <= |input|
      ensures index == BlankEnd(input, from)
    {
      index := from;
      while index < |input| && Blank(input[index])
        invariant from <= index <= |input| && BlankEnd(input, index) == BlankEnd(input, from)
      {
        index := index + 1;
      }
    }

    method IsInsert() returns (insert: bool)
      ensures insert == StatementIsInsert(input)
    {
      var index := SkipBlanks(0);
      insert := KeywordAt(input, index, "insert");
    }

    // Behind the run "() VALUES ()" at the current '(', or 0 when there is none.
    method MatchEmptyValues() returns (end: nat)
      requires Valid() && At(input, inputIndex, '(')
      ensures end == EmptyValuesEnd(input, inputIndex)
    {
      hide SameIgnoringCase, BlankEnd, PadEnd;
      var index := SkipPadding(inputIndex + 1);
      if index >= |input| || input[index] != ')' {
        return 0;
      }
      index := SkipBlanks(index + 1);
      if !KeywordAt(input, index, "values") {
        return 0;
      }
      index := SkipBlanks(index + 6);
      if index >= |input| || input[index] != '(' {
        return 0;
      }
      index := SkipPadding(index + 1);
      if index >= |input| || input[index] != ')' {
        return 0;
      }
      end := index + 1;
    }

    method MaybeRewriteInsertDefaultValues() returns (rewritten: bool)
      requires Valid() && At(input, inputIndex, '(')
      modifies this`inputIndex, this`output
      ensures Valid() && rewritten == EmptyValuesAt(input, old(inputIndex))
      ensures !rewritten ==> inputIndex == old(inputIndex) && output == old(output)
      ensures rewritten ==> inputIndex == EmptyValuesEnd(input, old(inputIndex))
      ensures rewritten ==> output == old(output) + Texts("DEFAULT VALUES")
    {
      hide Texts, EmptyValuesEnd;
      var end := MatchEmptyValues();
      rewritten := end > 0;
      if rewritten {
        EmitText("DEFAULT VALUES");
        Skip(end - inputIndex);
      }
    }

    // ---- One step ----

    /** Processes one unit, including every escape nested in it: one step of the specification. */
    method ScanStep()
      requires Valid() && inputIndex < |input|
      modifies this
      ensures Valid() && View() == EscapeModel.Step(input, standardConformingStrings, old(View()))
      ensures old(inputIndex) < inputIndex
      decreases Remaining(), 7
    {
      hide Texts, PlainStep, OpenBrace, EmptyValuesAt, EmptyValuesEnd, StatementIsInsert, KeywordAt;
      RewritesBy(input, inputIndex);
      if state == NORMAL && KeywordAt(input, inputIndex, "@@identity") {
        EmitText("lastval()");
        Skip(|"@@identity"|);
      } else if state == NORMAL && input[inputIndex] == '{' {
        HandleOpenBrace();
      } else {
        var rewritten := false;
        if state == NORMAL && input[inputIndex] == '(' {
          var insert := IsInsert();
          if insert {
            rewritten := MaybeRewriteInsertDefaultValues();
          }
        }
        if !rewritten {
          ScanPlain();
        }
      }
    }
  }

  // ---- The steps of the loops ----

  lemma SliceLonger(s: string, start: nat, end: nat)
    requires start <= end < |s|
    ensures s[start..end + 1] == s[start..end] + [s[end]]
  {
  }

  lemma Appended(copied: string, c: char, rest: string)
    ensures copied + ([c] + rest) == (copied + [c]) + rest
  {
  }

  // The template from `cursor` on follows what was written.
  lemma ExpandStep(output: seq<Item>, template: string, cursor: nat, arguments: seq<seq<Item>>)
    requires cursor < |template| && template[|template| - 1] != '$'
    ensures var next := cursor + if template[cursor] == '$' then 2 else 1;
            && next <= |template|
            && output + Expand(template, cursor, arguments) ==
               (output + ExpandAt(template, cursor, arguments)) + Expand(template, next, arguments)
  {
    hide ExpandAt;
    var next := cursor + if template[cursor] == '$' then 2 else 1;
    Associative(output, ExpandAt(template, cursor, arguments), Expand(template, next, arguments));
  }

  lemma Associative(a: seq<Item>, b: seq<Item>, c: seq<Item>)
    ensures a + (b + c) == (a + b) + c
  {
  }

  lemma ExpandEnds(output: seq<Item>, template: string, arguments: seq<seq<Item>>)
    requires template == [] || template[|template| - 1] != '$'
    ensures output + Expand(template, |template|, arguments) == output
  {
    assert output + [] == output;
  }

  lemma CallJoined(output: seq<Item>, name: seq<Item>, open: seq<Item>, arguments: seq<Item>, close: seq<Item>)
    ensures output + name + open + arguments + close == output + (name + open + arguments + close)
  {
  }

  lemma CallReadOn(x: string, s: Scan, counted: seq<nat>, open: nat, list: CallList)
    requires s.at <= |x| && open == CallOpen(x, ReturnValueEnd(x, s.at))
    requires counted == if At(x, s.at, '?') then s.consumed + [s.at] else s.consumed
    requires list == if At(x, open, '(') then ReadArguments(x, open + 1, 1, s.call.arguments, counted)
                     else CallList(open, s.call.arguments, counted)
    ensures list == CallOf(x, s.at, s.call.arguments, s.consumed)
  {
    hide ReadArguments, CallOpen, ReturnValueEnd;
  }

  // The fields that a call changes.
  lemma CallFinished(x: string, s: Scan, t: Scan)
    requires s.at <= |x| && t.state == s.state && t.call.isCall
    requires var list := CallOf(x, s.at, s.call.arguments, s.consumed);
             t.at == BehindBrace(x, list.end) && t.consumed == list.consumed && t.call.arguments == list.arguments
    requires t.call.returnValues == s.call.returnValues + if At(x, s.at, '?') then 1 else 0
    requires t.call.name == ProcedureName(x, ReturnValueEnd(x, s.at))
    requires t.output == s.output + Texts(CallHead(t.call.returnValues) + t.call.name)
    requires var roles := if At(x, s.at, '?') then WithRole(s.call.roles, |s.consumed|, ReturnValue) else s.call.roles;
             t.call.roles == WithInputs(roles, |s.consumed| + (if At(x, s.at, '?') then 1 else 0), |t.consumed|)
    ensures t == Called(x, s)
  {
    hide Texts, ProcedureName, CallOf, ReturnValueEnd, BehindBrace, WithInputs, WithRole, CallHead;
  }

  // What a function escape leaves, by the way it is continued.
  lemma FunctionCases(x: string, scs: bool, s: Scan)
    requires s.at <= |x|
    ensures var start := BlankEnd(x, s.at);
            var nameEnd := NameEnd(x, start, MAX_FN_NAME, FN_NAME_STOP);
            var open := BlankEnd(x, nameEnd);
            if !At(x, open, '(') then
              FunctionEscaped(x, scs, s) == Replaced(s, BehindBrace(x, open), x[start..nameEnd])
            else
              var c := CollectCall(x, scs, s.(at := open), MAX_FN_ARGUMENTS);
              FunctionEscaped(x, scs, s) ==
              if c.arguments.None? then c.scan
              else FunctionClosed(x, c.scan, FunctionText(x[start..nameEnd], c.arguments.value))
  {
    hide NameEnd, BlankEnd, BehindBrace, CollectCall, FunctionText, FunctionClosed, Texts;
  }

  // The text of a LIKE escape up to `i` has been copied.
  ghost predicate LikeCopied(x: string, start: nat, i: nat, before: seq<Item>, output: seq<Item>) {
    && start <= i <= |x| && BraceAt(x, i) == BraceAt(x, start)
    && output == before + Texts("ESCAPE " + x[start..i])
  }

  lemma LikeBegins(x: string, start: nat, before: seq<Item>)
    requires start <= |x|
    ensures LikeCopied(x, start, start, before, before + Texts("ESCAPE "))
  {
    assert "ESCAPE " + x[start..start] == "ESCAPE ";
  }

  lemma LikeStep(x: string, start: nat, i: nat, before: seq<Item>, output: seq<Item>)
    requires i < |x| && x[i] != '}' && LikeCopied(x, start, i, before, output)
    ensures LikeCopied(x, start, i + 1, before, output + Texts([x[i]]))
  {
    hide Texts;
    SliceLonger(x, start, i);
    Appended("ESCAPE " + x[start..i], x[i], "");
    TextsJoined("ESCAPE " + x[start..i], [x[i]]);
    assert "ESCAPE " + x[start..i + 1] == "ESCAPE " + x[start..i] + [x[i]];
    Associative(before, Texts("ESCAPE " + x[start..i]), Texts([x[i]]));
  }

  lemma LikeEnds(x: string, start: nat, i: nat, before: seq<Item>, output: seq<Item>)
    requires LikeCopied(x, start, i, before, output) && (i == |x| || x[i] == '}')
    ensures i == BraceAt(x, start) && BehindBrace(x, start) == (if i < |x| then i + 1 else i)
    ensures output == before + Texts("ESCAPE " + x[start..i])
  {
    hide Texts;
  }

  // Some of the body of a date has been copied, and what is missing follows at `i`.
  ghost predicate DatetimeCopied(x: string, start: nat, i: nat, before: seq<Item>, output: seq<Item>) {
    && start <= i <= |x| && BraceAt(x, i) == BraceAt(x, start)
    && output + Texts(DatetimeBody(x, i)) == before + Texts(DatetimeBody(x, start))
  }

  lemma DatetimeBegins(x: string, start: nat, before: seq<Item>)
    requires start <= |x|
    ensures DatetimeCopied(x, start, start, before, before)
  {
  }

  lemma DatetimeStep(x: string, start: nat, i: nat, before: seq<Item>, output: seq<Item>)
    requires DatetimeCopied(x, start, i, before, output) && i < |x| && x[i] != '}'
    ensures if At(x, PadEnd(x, i), '}') then
              PadEnd(x, i) == BraceAt(x, start) && output == before + Texts(DatetimeBody(x, start))
            else DatetimeCopied(x, start, i + 1, before, output + Texts([x[i]]))
  {
    hide Texts, DatetimeBody, BraceAt, PadEnd;
    DatetimeBodyAt(x, i);
    if At(x, PadEnd(x, i), '}') {
      PaddingBeforeBrace(x, i);
      DatetimeBodyAt(x, PadEnd(x, i));
      NoTexts();
      assert output + [] == output;
    } else {
      TextsJoined([x[i]], DatetimeBody(x, i + 1));
      Associative(output, Texts([x[i]]), Texts(DatetimeBody(x, i + 1)));
    }
  }

  lemma {:induction false} PaddingBeforeBrace(x: string, i: nat)
    requires i <= |x|
    ensures BraceAt(x, PadEnd(x, i)) == BraceAt(x, i)
    decreases |x| - i
  {
    if i < |x| && (x[i] == ' ' || x[i] == '\t') {
      PaddingBeforeBrace(x, i + 1);
    }
  }

  lemma DatetimeEnds(x: string, start: nat, i: nat, before: seq<Item>, output: seq<Item>)
    requires DatetimeCopied(x, start, i, before, output) && (i == |x| || x[i] == '}')
    ensures i == BraceAt(x, start) && output == before + Texts(DatetimeBody(x, start))
  {
    hide Texts, DatetimeBody, BraceAt;
    DatetimeBodyAt(x, i);
    NoTexts();
    assert output + [] == output;
  }

  // A cast has been read up to `i`.
  ghost predicate CastSoFar(x: string, start: nat, i: nat, cast: string) {
    && start + 2 <= i == start + |cast| && i <= |x| && |cast| < QUERY_MAX_CAST_LENGTH && cast == x[start..i]
    && CastEnd(x, i, QUERY_MAX_CAST_LENGTH - 1 - |cast|) == CastEnd(x, start + 2, QUERY_MAX_CAST_LENGTH - 3)
  }

  lemma CastBegins(x: string, start: nat)
    requires At(x, start, ':') && At(x, start + 1, ':')
    ensures CastSoFar(x, start, start + 2, "::")
  {
    assert x[start..start + 2] == "::";
  }

  lemma CastStep(x: string, start: nat, i: nat, cast: string)
    requires CastSoFar(x, start, i, cast) && i < |x| && |cast| < QUERY_MAX_CAST_LENGTH - 1 && IdentifierPart(x[i])
    ensures CastSoFar(x, start, i + 1, cast + [x[i]])
  {
    SliceLonger(x, start, i);
  }

  lemma CastEnds(x: string, start: nat, i: nat, cast: string)
    requires CastSoFar(x, start, i, cast) && At(x, start, ':') && At(x, start + 1, ':')
    requires !(i < |x| && |cast| < QUERY_MAX_CAST_LENGTH - 1 && IdentifierPart(x[i]))
    ensures cast == CastAt(x, start) && i == start + |cast|
  {
  }

  // A literal argument has been read up to `i`.
  ghost predicate LiteralSoFar(x: string, start: nat, depth: nat, i: nat, literal: string, parens: int) {
    && start <= i <= |x| && |literal| < QUERY_MAX_CALL_LITERAL && literal == x[start..i]
    && LiteralEnd(x, i, QUERY_MAX_CALL_LITERAL - 1 - |literal|, parens)
       == LiteralEnd(x, start, QUERY_MAX_CALL_LITERAL - 1, depth)
  }

  lemma LiteralBegins(x: string, start: nat, depth: nat)
    requires start <= |x|
    ensures LiteralSoFar(x, start, depth, start, "", depth)
  {
    hide LiteralEnd;
    assert x[start..start] == "";
  }

  lemma LiteralStep(x: string, start: nat, depth: nat, i: nat, literal: string, parens: int)
    requires LiteralSoFar(x, start, depth, i, literal, parens) && i < |x| && |literal| < QUERY_MAX_CALL_LITERAL - 1
    requires !(parens == 1 && x[i] in {',', ')'})
    ensures LiteralSoFar(x, start, depth, i + 1, literal + [x[i]],
                        parens + if x[i] == '(' then 1 else if x[i] == ')' then -1 else 0)
  {
    SliceLonger(x, start, i);
  }

  lemma LiteralEnds(x: string, start: nat, depth: nat, i: nat, literal: string, parens: int)
    requires LiteralSoFar(x, start, depth, i, literal, parens)
    requires i == |x| || |literal| >= QUERY_MAX_CALL_LITERAL - 1 || (parens == 1 && x[i] in {',', ')'})
    ensures literal == x[start..i] && (i, parens) == LiteralEnd(x, start, QUERY_MAX_CALL_LITERAL - 1, depth)
  {
  }

  // What there was in front of an argument list.
  datatype ListStart = ListStart(at: nat, arguments: seq<CallArgument>, consumed: seq<nat>, roles: seq<Role>)

  // Reading on from `i` gives the list that reading from its start gives.
  ghost predicate Listing(x: string, from: ListStart, i: nat, depth: nat, arguments: seq<CallArgument>,
                          consumed: seq<nat>, roles: seq<Role>)
  {
    && from.at <= |x| && i <= |x| && depth >= 1 && |from.consumed| <= |consumed|
    && ReadArguments(x, i, depth, arguments, consumed)
       == ReadArguments(x, from.at, 1, from.arguments, from.consumed)
    && roles == WithInputs(from.roles, |from.consumed|, |consumed|)
  }

  lemma ListingBegins(x: string, from: ListStart)
    requires from.at <= |x|
    ensures Listing(x, from, from.at, 1, from.arguments, from.consumed, from.roles)
  {
    hide ReadArguments, WithInputs;
    NoInputs(from.roles, |from.consumed|);
  }

  lemma ListingBlanks(x: string, from: ListStart, i: nat, depth: nat, arguments: seq<CallArgument>,
                      consumed: seq<nat>, roles: seq<Role>)
    requires Listing(x, from, i, depth, arguments, consumed, roles)
    ensures Listing(x, from, BlankEnd(x, i), depth, arguments, consumed, roles)
    ensures BlankEnd(x, BlankEnd(x, i)) == BlankEnd(x, i)
  {
    hide ReadArguments, WithInputs, BlankEnd;
    BlanksRead(x, i, depth, arguments, consumed);
  }

  lemma NoBlanksAtEnd(x: string)
    ensures BlankEnd(x, |x|) == |x|
  {
  }

  lemma ListingEnds(x: string, from: ListStart, i: nat, depth: nat, arguments: seq<CallArgument>,
                    consumed: seq<nat>, roles: seq<Role>)
    requires Listing(x, from, i, depth, arguments, consumed, roles) && BlankEnd(x, i) == i
    requires i < |x| ==> x[i] == ')'
    ensures CallList(if i == |x| then i else i + 1, arguments, consumed)
            == ReadArguments(x, from.at, 1, from.arguments, from.consumed)
    ensures roles == WithInputs(from.roles, |from.consumed|, |consumed|) && |from.consumed| <= |consumed|
  {
    hide ReadArguments, WithInputs, BlankEnd, ArgumentAt;
    ReadArgumentsHere(x, i, depth, arguments, consumed);
  }

  lemma ListingComma(x: string, from: ListStart, i: nat, depth: nat, arguments: seq<CallArgument>,
                     consumed: seq<nat>, roles: seq<Role>)
    requires Listing(x, from, i, depth, arguments, consumed, roles) && BlankEnd(x, i) == i && At(x, i, ',')
    ensures Listing(x, from, i + 1, depth, arguments, consumed, roles)
  {
    hide ReadArguments, WithInputs, BlankEnd, ArgumentAt;
    ReadArgumentsHere(x, i, depth, arguments, consumed);
  }

  lemma ListingArgument(x: string, from: ListStart, i: nat, depth: nat, arguments: seq<CallArgument>,
                        consumed: seq<nat>, roles: seq<Role>)
    requires Listing(x, from, i, depth, arguments, consumed, roles) && BlankEnd(x, i) == i
    requires depth >= 1 && i < |x| && x[i] !in {',', ')'}
    ensures var (argument, end, depth') := ArgumentAt(x, i, depth, |consumed|);
            Listing(x, from, BehindComma(x, BlankEnd(x, end)), depth', Recorded(arguments, argument),
                    if MarkerAt(x, i) then consumed + [i] else consumed,
                    if MarkerAt(x, i) then WithRole(roles, |consumed|, Role.Input) else roles)
  {
    hide ReadArguments, WithInputs, WithRole, BlankEnd, ArgumentAt, MarkerAt, Recorded;
    ReadArgumentsHere(x, i, depth, arguments, consumed);
    OneMoreInput(from.roles, |from.consumed|, |consumed|);
  }

  // A plain step copies its unit, unless it meets a mark.
  lemma CopiedUnit(x: string, scs: bool, s: Scan)
    requires s.at < |x| && !(s.state.Normal? && x[s.at] == '?')
    ensures var u := LexUnit(x, scs, s.at, s.state, CanOpenAfter(s.output));
            PlainStep(x, scs, s) == Scan(u.end, s.output + Texts(x[s.at..u.end]), u.state, s.consumed, s.call)
  {
    hide Texts, CanOpenAfter, LexUnit;
  }

  lemma MarkUnit(x: string, scs: bool, s: Scan)
    requires s.state.Normal? && At(x, s.at, '?')
    ensures PlainStep(x, scs, s) ==
            if PairAt(x, s.at) then Scan(s.at + 2, s.output + [Question], Normal, s.consumed, s.call)
            else Scan(s.at + 1, s.output + [Marker(|s.consumed| + 1, s.at)], Normal, s.consumed + [s.at],
                      s.call.(roles := WithRole(s.call.roles, |s.consumed|, Role.Input)))
  {
    hide Texts, CanOpenAfter, WithRole, DollarUnit;
  }

  /**
   Scans a whole text. Every marker consumed, however deep in an escape, gets the next number; the
   count is the number of markers consumed, and what is written or recorded carries the number of
   the '?' it stands for. A text in which nothing is met to rewrite comes through unchanged but for
   the numbers, in the states that the input decides exactly when no marker met stands directly
   before a dollar quote.
   */
  method QueryAnalyze(sql: string, standardConformingStrings: bool)
    returns (scanner: Scanner, ghost trace: seq<(nat, LexState)>)
    ensures fresh(scanner) && scanner.Valid() && scanner.input == sql
    ensures scanner.View() == Scanned(sql, standardConformingStrings)
    ensures trace == ScanTrace(sql, standardConformingStrings, Started())
    ensures Sound(sql, scanner.View()) && scanner.paramNumber == |scanner.consumed|
    ensures Untouched(sql, standardConformingStrings, 0, StartReading([], 0)) ==>
              && Original(scanner.output) == sql
              && (trace == Trace(sql, standardConformingStrings, true, 0, Normal) <==>
                  UnquotedMarkers(sql, standardConformingStrings, 0, Normal))
    ensures PlainText(sql, standardConformingStrings) ==>
              scanner.paramNumber == Markers(sql, standardConformingStrings, 0, Normal)
  {
    hide EscapeModel.Step, ScanFrom, ScanTrace, Scanner.Lexed;
    hide Sound, Untouched, UnquotedMarkers, Trace, PlainText, Markers, Original;
    var scs := standardConformingStrings;
    scanner := new Scanner(sql, scs);
    trace := [];
    while scanner.inputIndex < |sql|
      invariant fresh(scanner) && scanner.Valid() && scanner.input == sql && scanner.standardConformingStrings == scs
      invariant ScanFrom(sql, scs, scanner.View()) == Scanned(sql, scs)
      invariant trace + ScanTrace(sql, scs, scanner.View()) == ScanTrace(sql, scs, Started())
      decreases |sql| - scanner.inputIndex
    {
      ScanOn(sql, scs, scanner.View());
      trace := TraceLonger(sql, scs, scanner.View(), trace);
      scanner.ScanStep();
    }
    TraceOn(sql, scs, scanner.View());
    trace := trace + [(|sql|, scanner.Lexed())];
    ScanEnds(sql, scs, scanner.View());
    AnalysisHolds(sql, scs);
  }

  lemma TraceLonger(x: string, scs: bool, s: Scan, trace: seq<(nat, LexState)>)
    returns (longer: seq<(nat, LexState)>)
    requires s.at < |x|
    ensures longer == trace + [(s.at, s.state)]
    ensures longer + ScanTrace(x, scs, EscapeModel.Step(x, scs, s)) == trace + ScanTrace(x, scs, s)
  {
    hide EscapeModel.Step, ScanTrace;
    TraceOn(x, scs, s);
    longer := trace + [(s.at, s.state)];
    var rest := ScanTrace(x, scs, EscapeModel.Step(x, scs, s));
    assert trace + [(s.at, s.state)] + rest == trace + ([(s.at, s.state)] + rest);
  }

  // What holds of every scan, and of the scan of a text without rewritings.
  lemma AnalysisHolds(sql: string, scs: bool)
    ensures Sound(sql, Scanned(sql, scs))
    ensures Untouched(sql, scs, 0, StartReading([], 0)) ==>
              && Original(Scanned(sql, scs).output) == sql
              && (ScanTrace(sql, scs, Started()) == Trace(sql, scs, true, 0, Normal) <==>
                  UnquotedMarkers(sql, scs, 0, Normal))
    ensures PlainText(sql, scs) ==> |Scanned(sql, scs).consumed| == Markers(sql, scs, 0, Normal)
  {
    hide Scanned, ScanTrace, Sound, Untouched, UnquotedMarkers, Trace, PlainText, Markers, Original;
    ScannedSound(sql, scs);
    if Untouched(sql, scs, 0, StartReading([], 0)) {
      ScannerAgreesExactly(sql, scs);
    }
    if PlainText(sql, scs) {
      PlainIsScanned(sql, scs);
    }
  }
}
