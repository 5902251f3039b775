/** The parser class of `NutParser.swift`: it drives a `NutLexical` over the
    template, keeps the stack of open blocks in a `Stack`, and memoises the
    compiled commands. Every method is proved to compute what the matching
    function of `ParseSpec` says and to leave the lexer where it says. */
module Parser {
  import opened Wrappers
  import Tokens
  import opened Stacks
  import opened LexSpec
  import opened Lexical
  import opened Commands
  import opened ParseSpec

  /** `check(variable:)`'s `State`. */
  datatype State = Start | InVariable

  class NutParser {
    const name: string
    const content: string
    /** The memoised result of `getCommands()`. */
    var commands: Option<ViewCommands>

    constructor(content: string, name: string)
      ensures this.name == name && this.content == content && commands == None
    {
      this.name := name;
      this.content := content;
      commands := None;
    }

    /** `getCommands()`: the stored commands if there are any, otherwise the
        template is parsed and, on success, the result is stored. */
    method GetCommands() returns (r: Result<ViewCommands, ParseError>)
      modifies this
      ensures old(commands).Some? ==> r == Ok(old(commands).value) && commands == old(commands)
      ensures old(commands).None? ==>
        var p := ParseAll(name, content);
        (r.Ok? <==> p.Ok?) && (r.Ok? ==> r.value == ViewCommands(name, p.value) && commands == Some(r.value))
        && (r.Err? ==> r.error == p.error && commands == None)
    {
      if commands.Some? {
        return Ok(commands.value);
      }
      var body := ParseCommands();
      if body.Err? {
        return Err(body.error);
      }
      var cmds := ViewCommands(name, body.value);
      commands := Some(cmds);
      return Ok(cmds);
    }

    /** `parseCommands()`. */
    method ParseCommands() returns (r: Result<seq<Command>, ParseError>)
      ensures r == ParseAll(name, content)
    {
      var lexical := new NutLexical(content);
      var context := new Stack<(Context, seq<Command>)>();
      var body: seq<Command> := [];
      var currentContext: Context := MainCtx;
      while true
        invariant lexical.Valid() && lexical.buffer.content == content
        invariant fresh(context) && fresh(lexical.buffer) && fresh(lexical.buffer.indexes)
        invariant StateOk(ParserState(context.elements, currentContext, body))
        invariant ParseLoop(name, content, lexical.buffer.index, ParserState(context.elements, currentContext, body))
          == ParseAll(name, content)
        decreases |content| - lexical.buffer.index
      {
        var tokenType := lexical.NextTokenType();
        if tokenType.Err? {
          return Err(Lexical(name, tokenType.error));
        }
        if tokenType.value.None? {
          break;
        }
        ghost var st := ParserState(context.elements, currentContext, body);
        ghost var i := lexical.buffer.index;
        assert ParseLoop(name, content, i, st) == (
          var next :- Step(name, content, i, st);
          ParseLoop(name, content, next.1, next.0));
        match tokenType.value.value
        case Html =>
          var html := lexical.NextHTML();
          body := body + [Html(html.value, html.line)];
        case Command =>
          var cmd := lexical.NextCommand();
          if cmd.Err? {
            return Err(Lexical(name, cmd.error));
          }
          if cmd.value.None? {
            return Err(IncompleteCommand(name, "tokenId.rawValue"));
          }
          var next := Dispatch(lexical, context, currentContext, body, cmd.value.value);
          if next.Err? {
            return Err(next.error);
          }
          currentContext, body := next.value.0, next.value.1;
      }
      return Finish(name, ParserState(context.elements, currentContext, body));
    }

    /** The `switch cmd.type` of `parseCommands()`: `context` holds the
        enclosing blocks, `current` and `body` the open one. */
    method Dispatch(lexical: NutLexical, context: Stack<(Context, seq<Command>)>, current: Context,
                    body: seq<Command>, cmd: Tokens.CommandToken)
      returns (r: Result<(Context, seq<Command>), ParseError>)
      requires lexical.Valid() && StateOk(ParserState(context.elements, current, body))
      modifies lexical.buffer, lexical.buffer.indexes, context
      ensures lexical.Valid()
      ensures var p := CommandStep(name, lexical.buffer.content, old(lexical.buffer.index),
                                   ParserState(old(context.elements), current, body), cmd);
        (r.Ok? <==> p.Ok?) && (r.Err? ==> r.error == p.error)
        && (r.Ok? ==> ParserState(context.elements, r.value.0, r.value.1) == p.value.0
                      && lexical.buffer.index == p.value.1)
    {
      var line := cmd.line;
      var t := cmd.cmdType;
      if t.For? {
        var forData := ParseFor(lexical);
        if forData.Err? {
          return Err(forData.error);
        }
        context.Push((current, body));
        return Ok((ForCtx(forData.value.0, forData.value.1, forData.value.2, line), []));
      } else if t.If? {
        var conditions := ParseIf(lexical);
        if conditions.Err? {
          return Err(conditions.error);
        }
        context.Push((current, body));
        return Ok((IfCtx(conditions.value, line), []));
      } else if t.ElseIf? {
        if !(current.IfCtx? || current.ElseIfCtx?) {
          return Err(Syntax(name, "Missing if <expression> { for closing elseIf", line));
        }
        var ifCmd := IfSoFar(current, body);
        var conditions := ParseIf(lexical);
        if conditions.Err? {
          return Err(conditions.error);
        }
        return Ok((ElseIfCtx(ifCmd, conditions.value, line), []));
      } else if t.BlockEnd? {
        if current.MainCtx? {
          return Err(Syntax(name, "Unexpected block end 'blockEnd'", line));
        }
        var blockCommand := ClosedBlock(current, body);
        var top := context.Pop();
        var (previous, previousBody) := top.value;
        if Kept(blockCommand) {
          return Ok((previous, previousBody + [blockCommand]));
        }
        return Ok((previous, previousBody));
      } else if t.Else? {
        if !(current.IfCtx? || current.ElseIfCtx?) {
          return Err(Syntax(name, "Missing if <expression> { for closing else", line));
        }
        return Ok((ElseCtx(IfSoFar(current, body), line), []));
      }
      var c := SimpleCommand(lexical, cmd);
      if c.Err? {
        return Err(c.error);
      }
      return Ok((current, body + [c.value]));
    }

    /** The cases of the switch that append one command. */
    method SimpleCommand(lexical: NutLexical, cmd: Tokens.CommandToken) returns (r: Result<Command, ParseError>)
      requires lexical.Valid() && IsSimple(cmd.cmdType)
      modifies lexical.buffer, lexical.buffer.indexes
      ensures lexical.Valid()
      ensures var p := SimpleCommandAt(name, lexical.buffer.content, old(lexical.buffer.index), cmd);
        r == Value(p) && (p.Ok? ==> lexical.buffer.index == p.value.1)
    {
      var line := cmd.line;
      match cmd.cmdType
      case Title =>
        var value := ParseEscapedValue(lexical);
        if value.Err? {
          return Err(value.error);
        }
        return Ok(Title(value.value, line));
      case EscapedValue =>
        var value := ParseEscapedValue(lexical);
        if value.Err? {
          return Err(value.error);
        }
        return Ok(EscapedValue(value.value.expression, value.value.line));
      case RawValue =>
        var value := ParseRawValue(lexical, line);
        if value.Err? {
          return Err(value.error);
        }
        return Ok(RawValue(value.value.expression, line));
      case Subview =>
        var value := ParseRawValue(lexical, line);
        if value.Err? {
          return Err(value.error);
        }
        return Ok(Subview(value.value, line));
      case Layout =>
        var value := ParseRawValue(lexical, line);
        if value.Err? {
          return Err(value.error);
        }
        return Ok(Layout(value.value, line));
      case View =>
        r := ParseInsertView(lexical, line);
      case Date =>
        r := ParseDate(lexical, line);
      case Head =>
        return Err(Unknown(name, "head"));
    }

    /** `parseFor(lexical:)`. */
    method ParseFor(lexical: NutLexical) returns (r: Result<(Option<string>, string, string), ParseError>)
      requires lexical.Valid()
      modifies lexical.buffer, lexical.buffer.indexes
      ensures lexical.Valid()
      ensures var p := ForAt(name, lexical.buffer.content, old(lexical.buffer.index));
        r == Value(p) && (p.Ok? ==> lexical.buffer.index == p.value.1)
    {
      var tok := lexical.NextToken();
      if tok.None? {
        return Err(IncompleteCommand(name, "variable name"));
      }
      var t := tok.value;
      var key: Option<string>;
      var value: string;
      if t.id == Tokens.TextToken {
        key := None;
        var e := CheckVariable(t.value, t.line, false);
        if e.Some? {
          return Err(e.value);
        }
        value := t.value;
      } else if t.id == Tokens.LeftParentles {
        var vars := TupleVariables(lexical);
        if vars.Err? {
          return Err(vars.error);
        }
        key, value := Some(vars.value.0), vars.value.1;
      } else {
        return Err(Syntax(name, "Expecting 'variable name' or 'tupple' but '" + Tokens.TokenDescription(t) + "' found", t.line));
      }
      var inToken := CheckNextToken(lexical, Tokens.TextToken, Some("in"));
      if inToken.Err? {
        return Err(inToken.error);
      }
      var collectionToken := CheckNextToken(lexical, Tokens.TextToken, None);
      if collectionToken.Err? {
        return Err(collectionToken.error);
      }
      var e := CheckVariable(collectionToken.value.value, collectionToken.value.line, true);
      if e.Some? {
        return Err(e.value);
      }
      var brace := CheckNextToken(lexical, Tokens.LeftCurly, None);
      if brace.Err? {
        return Err(brace.error);
      }
      return Ok((key, value, collectionToken.value.value));
    }

    /** The `.leftParentles` case of `parseFor`: `key, value)`. */
    method TupleVariables(lexical: NutLexical) returns (r: Result<(string, string), ParseError>)
      requires lexical.Valid()
      modifies lexical.buffer, lexical.buffer.indexes
      ensures lexical.Valid()
      ensures var t := Tokens.Token(Tokens.LeftParentles, "(", 0);
        var p := ForVariables(name, lexical.buffer.content, t, old(lexical.buffer.index));
        (r.Ok? <==> p.Ok?) && (r.Err? ==> r.error == p.error)
        && (r.Ok? ==> p.value.0 == (Some(r.value.0), r.value.1) && lexical.buffer.index == p.value.1)
    {
      var keyToken := CheckNextToken(lexical, Tokens.TextToken, None);
      if keyToken.Err? {
        return Err(keyToken.error);
      }
      var e := CheckVariable(keyToken.value.value, keyToken.value.line, false);
      if e.Some? {
        return Err(e.value);
      }
      var comma := CheckNextToken(lexical, Tokens.Comma, None);
      if comma.Err? {
        return Err(comma.error);
      }
      var valueToken := CheckNextToken(lexical, Tokens.TextToken, None);
      if valueToken.Err? {
        return Err(valueToken.error);
      }
      e := CheckVariable(valueToken.value.value, valueToken.value.line, false);
      if e.Some? {
        return Err(e.value);
      }
      var close := CheckNextToken(lexical, Tokens.RightParentles, None);
      if close.Err? {
        return Err(close.error);
      }
      return Ok((keyToken.value.value, valueToken.value.value));
    }

    /** `parseIf(lexical:)`: reads conditions while they end at `,`. */
    method ParseIf(lexical: NutLexical) returns (r: Result<seq<Condition>, ParseError>)
      requires lexical.Valid()
      modifies lexical.buffer, lexical.buffer.indexes
      ensures lexical.Valid()
      ensures var p := IfAt(name, lexical.buffer.content, old(lexical.buffer.index));
        r == Value(p) && (p.Ok? ==> lexical.buffer.index == p.value.1)
    {
      ghost var s := lexical.buffer.content;
      ghost var final := IfAt(name, s, lexical.buffer.index);
      var conditions: seq<Condition> := [];
      while true
        invariant lexical.Valid()
        invariant IfFrom(name, s, lexical.buffer.index, conditions) == final
        decreases |s| - lexical.buffer.index
      {
        ghost var i := lexical.buffer.index;
        var letToken := lexical.GetNextToken();
        if letToken.None? {
          return Err(IncompleteCommand(name, "let or expression"));
        }
        var variable := ReadLet(lexical, letToken.value);
        if variable.Err? {
          return Err(variable.error);
        }
        ghost var b := lexical.buffer.index;
        var expr := lexical.ReadExpression(['{', ',']);
        if expr.Err? {
          return Err(Lexical(name, expr.error));
        }
        ExpressionProgress(s, b, ['{', ',']);
        var (cond, newStop) := expr.value;
        var condition := Expr(cond.value, cond.line);
        if variable.value.Some? {
          conditions := conditions + [Cast(variable.value.value, condition)];
        } else {
          conditions := conditions + [Simple(condition)];
        }
        if newStop != ',' {
          return Ok(conditions);
        }
      }
    }

    /** The `let name =` branch of `parseIf`, entered with the next token
        already looked at. */
    method ReadLet(lexical: NutLexical, letToken: Tokens.Token) returns (r: Result<Option<string>, ParseError>)
      requires lexical.Valid() && TokenAt(lexical.buffer.content, lexical.buffer.index).0 == Some(letToken)
      modifies lexical.buffer, lexical.buffer.indexes
      ensures lexical.Valid()
      ensures var p := LetBinding(name, lexical.buffer.content, old(lexical.buffer.index));
        r == Value(p) && (p.Ok? ==> lexical.buffer.index == p.value.1)
    {
      if letToken.id == Tokens.TextToken && letToken.value == "let" {
        var _ := lexical.NextToken();
        var vari := CheckNextToken(lexical, Tokens.TextToken, None);
        if vari.Err? {
          return Err(vari.error);
        }
        var e := CheckVariable(vari.value.value, vari.value.line, false);
        if e.Some? {
          return Err(e.value);
        }
        var eq := CheckNextToken(lexical, Tokens.Equal, None);
        if eq.Err? {
          return Err(eq.error);
        }
        return Ok(Some(vari.value.value));
      }
      return Ok(None);
    }

    /** `parseInserView(lexical:line:)`. */
    method ParseInsertView(lexical: NutLexical, line: int) returns (r: Result<Command, ParseError>)
      requires lexical.Valid()
      modifies lexical.buffer, lexical.buffer.indexes
      ensures lexical.Valid()
      ensures var p := InsertViewAt(name, lexical.buffer.content, old(lexical.buffer.index), line);
        r == Value(p) && (p.Ok? ==> lexical.buffer.index == p.value.1)
    {
      var open := CheckNextToken(lexical, Tokens.LeftParentles, None);
      if open.Err? {
        return Err(open.error);
      }
      var close := CheckNextToken(lexical, Tokens.RightParentles, None);
      if close.Err? {
        return Err(close.error);
      }
      return Ok(InsertView(line));
    }

    /** `parseRawValue(lexical:line:)`. */
    method ParseRawValue(lexical: NutLexical, line: int) returns (r: Result<Expr, ParseError>)
      requires lexical.Valid()
      modifies lexical.buffer, lexical.buffer.indexes
      ensures lexical.Valid()
      ensures var p := RawValueAt(name, lexical.buffer.content, old(lexical.buffer.index), line);
        r == Value(p) && (p.Ok? ==> lexical.buffer.index == p.value.1)
    {
      var open := CheckNextToken(lexical, Tokens.LeftParentles, None);
      if open.Err? {
        return Err(open.error);
      }
      ghost var o := lexical.buffer.index;
      var expr := lexical.ReadExpression([')']);
      if expr.Err? {
        return Err(Lexical(name, expr.error));
      }
      ExpressionProgress(lexical.buffer.content, o, [')']);
      return Ok(Expr(expr.value.0.value, line));
    }

    /** `parseEscapedValue(lexical:)`. */
    method ParseEscapedValue(lexical: NutLexical) returns (r: Result<Expr, ParseError>)
      requires lexical.Valid()
      modifies lexical.buffer, lexical.buffer.indexes
      ensures lexical.Valid()
      ensures var p := EscapedValueAt(name, lexical.buffer.content, old(lexical.buffer.index));
        r == Value(p) && (p.Ok? ==> lexical.buffer.index == p.value.1)
    {
      var open := CheckNextToken(lexical, Tokens.LeftParentles, None);
      if open.Err? {
        return Err(open.error);
      }
      ghost var o := lexical.buffer.index;
      var expr := lexical.ReadExpression([')']);
      if expr.Err? {
        return Err(Lexical(name, expr.error));
      }
      ExpressionProgress(lexical.buffer.content, o, [')']);
      return Ok(Expr(expr.value.0.value, expr.value.0.line));
    }

    /** `parseDate(lexical:line:)`. */
    method ParseDate(lexical: NutLexical, line: int) returns (r: Result<Command, ParseError>)
      requires lexical.Valid()
      modifies lexical.buffer, lexical.buffer.indexes
      ensures lexical.Valid()
      ensures var p := DateAt(name, lexical.buffer.content, old(lexical.buffer.index), line);
        r == Value(p) && (p.Ok? ==> lexical.buffer.index == p.value.1)
    {
      var open := CheckNextToken(lexical, Tokens.LeftParentles, None);
      if open.Err? {
        return Err(open.error);
      }
      ghost var o := lexical.buffer.index;
      var expr := lexical.ReadExpression([',', ')']);
      if expr.Err? {
        return Err(Lexical(name, expr.error));
      }
      ExpressionProgress(lexical.buffer.content, o, [',', ')']);
      var formatExp: Option<Expr>;
      if expr.value.1 == ',' {
        var named := CheckNextToken(lexical, Tokens.NamedArgument, Some("format"));
        if named.Err? {
          return Err(named.error);
        }
        var format := lexical.ReadExpression([')']);
        if format.Err? {
          return Err(Lexical(name, format.error));
        }
        formatExp := Some(Expr(format.value.0.value, format.value.0.line));
      } else {
        formatExp := None;
      }
      return Ok(Date(Expr(expr.value.0.value, expr.value.0.line), formatExp, line));
    }

    /** `checkNextToken(lexical:tokenId:expValue:)`. */
    method CheckNextToken(lexical: NutLexical, tokenId: Tokens.TokenType, expValue: Option<string>)
      returns (r: Result<Tokens.Token, ParseError>)
      requires lexical.Valid()
      modifies lexical.buffer
      ensures lexical.Valid()
      ensures var p := ParseSpec.CheckNextToken(name, lexical.buffer.content, old(lexical.buffer.index), tokenId, expValue);
        r == Value(p) && (p.Ok? ==> lexical.buffer.index == p.value.1)
    {
      var token := lexical.NextToken();
      if token.None? {
        return Err(IncompleteCommand(name, Tokens.TokenRawValue(tokenId)));
      }
      var t := token.value;
      if t.id != tokenId {
        return Err(Syntax(name, "Expecting '" + Tokens.TokenRawValue(tokenId) + "' but '" + Tokens.TokenRawValue(t.id)
                          + "' with value '" + t.value + "' found", t.line));
      }
      if expValue.Some? && t.value != expValue.value {
        return Err(Syntax(name, "Expecting value '" + expValue.value + "' for token '" + Tokens.TokenCaseName(tokenId)
                          + "' but '" + Tokens.TokenDescription(t) + "' found", t.line));
      }
      return Ok(t);
    }

    /** `check(variable:line:allowNesting:)`: the state machine over the
        characters of `variable`. */
    method CheckVariable(variable: string, line: int, allowNesting: bool) returns (r: Option<ParseError>)
      ensures r == IdentifierError(name, variable, line, allowNesting)
    {
      var state := Start;
      var k := 0;
      while k < |variable|
        invariant 0 <= k <= |variable|
        invariant IdentifierFrom(name, variable, line, allowNesting, k, state == InVariable)
          == IdentifierError(name, variable, line, allowNesting)
      {
        var c := variable[k];
        match state {
          case Start =>
            if IsIdentStart(c) {
              state := InVariable;
            } else {
              return Some(Syntax(name, "Identifier name can not starts with '" + [c] + "'", line));
            }
          case InVariable =>
            if IsIdentPart(c) {
            } else if c == '.' {
              if !allowNesting {
                return Some(Syntax(name, "Expecting identifier without nesting", line));
              }
              state := Start;
            } else {
              return Some(Syntax(name, "Unsupported character '" + [c] + "' for identifier", line));
            }
        }
        k := k + 1;
      }
      if state != InVariable {
        return Some(Syntax(name, "'" + variable + "' is not valid identifier", line));
      }
      return None;
    }
  }
}
