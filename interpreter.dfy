/** `NutInterpreter`: the object that renders a view. Its methods change
    `data`, `currentName` and `viewContent` as the Swift class does, and each
    is proved to compute what the functions of `Interpretation` describe, so
    the properties proved there (loop variables and `if let` bindings undone,
    output in command order, the first satisfied branch taken) hold of it. */
module Interpreter {
  import opened Wrappers
  import opened Commands
  import opened Markup
  import opened Interpretation

  class NutInterpreter {
    var currentName: string
    var data: Data
    const viewName: string
    var viewContent: Option<string>
    /** The evaluator, `String(describing:)`, `Double`, `DateFormatter`,
        dictionary order and the resolver. */
    const host: Host

    constructor(name: string, data: Data, host: Host)
      ensures currentName == name && this.data == data && viewContent == None
      ensures viewName == "Views." + name && this.host == host
    {
      currentName := name;
      this.data := data;
      viewName := "Views." + name;
      viewContent := None;
      this.host := host;
    }

    /** `resolve()`: the page of the view; subviews may nest `fuel` deep. */
    method Resolve(fuel: nat) returns (r: Result<string, InterpretError>)
      modifies this
      ensures var s := Page(host, viewName, old(currentName), old(data), old(viewContent), fuel);
        (r.Ok? <==> s.Ok?) && (r.Err? ==> r.error == s.error) &&
        (r.Ok? ==> r.value == s.value.0 && viewContent == Some(s.value.1) &&
                   data == old(data) && currentName == old(currentName))
    {
      var viewCommands := View(host, viewName);
      if viewCommands.Err? {
        return Err(viewCommands.error);
      }
      var page := Render(viewCommands.value, fuel);
      if page.Err? {
        var error := page.error;
        if error.OldParserError? && error.name.None? {
          error := error.(name := Some(viewCommands.value.fileName));
        }
        return Err(error);
      }
      return Ok(page.value);
    }

    /** The `do` block of `resolve()`. */
    method Render(vc: ViewCommands, fuel: nat) returns (r: Result<string, InterpretError>)
      modifies this
      ensures var s := PageBody(host, old(currentName), vc, old(data), old(viewContent), fuel);
        (r.Ok? <==> s.Ok?) && (r.Err? ==> r.error == s.error) &&
        (r.Ok? ==> r.value == s.value.0 && viewContent == Some(s.value.1) &&
                   data == old(data) && currentName == old(currentName))
    {
      var descriptor := RunBody(vc.body, fuel);
      if descriptor.Err? {
        return Err(descriptor.error);
      }
      viewContent := Some(descriptor.value.content);
      var head := descriptor.value.heads;
      var result: string;
      if descriptor.value.layout.Some? {
        var layoutName := "Layouts." + descriptor.value.layout.value;
        var layoutVC := View(host, layoutName);
        if layoutVC.Err? {
          return Err(layoutVC.error);
        }
        var prevName := currentName;
        currentName := layoutName;
        var desc := RunBody(layoutVC.value.body, fuel);
        if desc.Err? {
          return Err(desc.error);
        }
        currentName := prevName;
        head := head + desc.value.heads;
        result := desc.value.content;
      } else {
        result := descriptor.value.content;
      }
      if |head| > 0 {
        var headResult := RunHeads(head);
        if headResult.Err? {
          return Err(headResult.error);
        }
        result := InjectHead(result, headResult.value);
      }
      return Ok(result);
    }

    /** `run(head:)`. */
    method RunHeads(heads: seq<Command>) returns (r: Result<string, InterpretError>)
      ensures r == RunHead(host, data, heads)
    {
      var res := "";
      var i := 0;
      while i < |heads|
        invariant 0 <= i <= |heads|
        invariant RunHead(host, data, heads) == Prefixed(res, RunHead(host, data, heads[i..]))
      {
        assert heads[i..][0] == heads[i] && heads[i..][1..] == heads[i + 1..];
        var token := heads[i];
        var text: string;
        if token.Title? {
          var title := ParseTitle(token.expr);
          if title.Err? {
            return Err(title.error);
          }
          text := title.value;
        } else {
          text := UnknownToken(token);
        }
        if RunHead(host, data, heads[i + 1..]).Ok? {
          Text.AppendAssoc(res, text, RunHead(host, data, heads[i + 1..]).value);
        }
        res := res + text;
        i := i + 1;
      }
      assert heads[i..] == [] && res + "" == res;
      return Ok(res);
    }

    /** `run(body:)`: the commands in order, their content and heads
        appended, the last layout kept. */
    method RunBody(body: seq<Command>, fuel: nat) returns (r: Result<Descriptor, InterpretError>)
      modifies this
      ensures viewContent == old(viewContent)
      ensures var s := RunSeq(host, Env(old(currentName), old(viewContent)), old(data), body, Empty, fuel);
        (r.Ok? <==> s.Ok?) && (r.Err? ==> r.error == s.error) &&
        (r.Ok? ==> r.value == s.value.0 && data == old(data) && currentName == old(currentName))
      decreases fuel, body, 0
    {
      var res := "";
      var heads: seq<Command> := [];
      var layout: Option<string> := None;
      var i := 0;
      while i < |body|
        invariant 0 <= i <= |body|
        invariant data == old(data) && currentName == old(currentName) && viewContent == old(viewContent)
        invariant RunSeq(host, Env(currentName, viewContent), data, body[i..], Descriptor(res, heads, layout), fuel)
               == RunSeq(host, Env(currentName, viewContent), data, body, Empty, fuel)
      {
        assert body[i..][0] == body[i] && body[i..][1..] == body[i + 1..];
        var desc := RunToken(body[i], fuel);
        if desc.Err? {
          return Err(desc.error);
        }
        res := res + desc.value.content;
        heads := heads + desc.value.heads;
        if desc.value.layout.Some? {
          layout := desc.value.layout;
        }
        i := i + 1;
      }
      assert body[i..] == [];
      return Ok(Descriptor(res, heads, layout));
    }

    /** One case of the `switch` of `run(body:)`: what the command adds to
        the descriptor. */
    method RunToken(c: Command, fuel: nat) returns (r: Result<Descriptor, InterpretError>)
      modifies this
      ensures viewContent == old(viewContent)
      ensures var s := RunCommand(host, Env(old(currentName), old(viewContent)), old(data), c, fuel);
        (r.Ok? <==> s.Ok?) && (r.Err? ==> r.error == s.error) &&
        (r.Ok? ==> r.value == s.value.0 && data == old(data) && currentName == old(currentName))
      decreases fuel, c, 2
    {
      match c {
        case EscapedValue(e, line) =>
          var s := ParseExpression(Expr(e, line));
          if s.Err? {
            return Err(s.error);
          }
          return Ok(Piece(s.value));
        case RawValue(e, line) =>
          var s := ParseRawExpression(Expr(e, line));
          if s.Err? {
            return Err(s.error);
          }
          return Ok(Piece(s.value));
        case For(_, _, _, _, _) =>
          r := ParseFor(c, fuel);
        case If(_, _, _) =>
          r := ParseIf(c, fuel);
        case Html(value, _) =>
          return Ok(Piece(value));
        case Date(date, format, line) =>
          var s := ParseDate(date, format, line);
          if s.Err? {
            return Err(s.error);
          }
          return Ok(Piece(s.value));
        case InsertView(line) =>
          if viewContent.None? {
            return Err(RecursiveView(currentName, line));
          }
          return Ok(Piece(viewContent.value));
        case Subview(e, line) =>
          var subviewName := ParseRawExpression(e);
          if subviewName.Err? {
            return Err(subviewName.error);
          }
          var subview := View(host, "Subviews." + subviewName.value);
          if subview.Err? {
            return Err(subview.error);
          }
          if fuel == 0 {
            return Err(SubviewDepth(subviewName.value, line));
          }
          var prevName := currentName;
          currentName := subviewName.value;
          var desc := RunBody(subview.value.body, fuel - 1);
          if desc.Err? {
            return Err(desc.error);
          }
          currentName := prevName;
          return Ok(desc.value);
        case Layout(e, _) =>
          var layoutName := ParseRawExpression(e);
          if layoutName.Err? {
            return Err(layoutName.error);
          }
          return Ok(Descriptor("", [], Some(layoutName.value)));
        case Title(_, _) =>
          return Ok(Descriptor("", [c], None));
        case Head(_, _) =>
          return Ok(Piece(UnknownToken(c)));
        case Body(_, _) =>
          return Ok(Piece(UnknownToken(c)));
      }
    }

    /** `parse(rawExpression:)`. */
    method ParseRawExpression(e: Expr) returns (r: Result<string, InterpretError>)
      ensures r == RawExpression(host, data, e)
    {
      var res := host.evaluate(e.expression, data);
      if res.Err? {
        return Err(OldParserError(EvaluationError(e.expression, res.error), e.line, None));
      }
      var value := if res.value.Some? then res.value.value else Str("nil");
      return Ok(host.describe(Unwrap(value)));
    }

    /** `parse(expression:)`. */
    method ParseExpression(e: Expr) returns (r: Result<string, InterpretError>)
      ensures r == EscapedExpression(host, data, e)
    {
      var str := ParseRawExpression(e);
      if str.Err? {
        return Err(str.error);
      }
      return Ok(ConvertToSpecialCharacters(str.value));
    }

    /** `parse(title:)`. */
    method ParseTitle(e: Expr) returns (r: Result<string, InterpretError>)
      ensures r == TitleText(host, data, e)
    {
      var expr := ParseExpression(e);
      if expr.Err? {
        return Err(expr.error);
      }
      return Ok("<title>" + expr.value + "</title>");
    }

    /** `parse(date:)`. */
    method ParseDate(date: Expr, format: Option<Expr>, line: int) returns (r: Result<string, InterpretError>)
      ensures r == DateText(host, data, date, format, line)
    {
      var dateStr := ParseRawExpression(date);
      if dateStr.Err? {
        return Err(dateStr.error);
      }
      if !host.isNumber(dateStr.value) {
        return Err(OldParserError(WrongValueFor("Date(_:format:)", "Double", Str(dateStr.value)), date.line, None));
      }
      var f: Expr;
      if format.None? {
        f := Expr("\"" + DateDefaultFormat + "\"", line);
      } else {
        f := format.value;
      }
      var formatStr := ParseRawExpression(f);
      if formatStr.Err? {
        return Err(formatStr.error);
      }
      return Ok(host.formatDate(dateStr.value, formatStr.value));
    }

    /** `parse(forIn:)`. */
    method ParseFor(c: Command, fuel: nat) returns (r: Result<Descriptor, InterpretError>)
      requires c.For?
      modifies this
      ensures viewContent == old(viewContent)
      ensures var s := ForCommand(host, Env(old(currentName), old(viewContent)), old(data), c, fuel);
        (r.Ok? <==> s.Ok?) && (r.Err? ==> r.error == s.error) &&
        (r.Ok? ==> r.value == s.value.0 && data == old(data) && currentName == old(currentName))
      decreases fuel, c, 1
    {
      var arr := GetValue(c.collection, data);
      if arr.None? {
        return Err(OldParserError(MissingValue(c.collection), c.line, None));
      }
      ghost var env := Env(currentName, viewContent);
      var prevValue := Get(data, c.value);
      var res := "";
      var heads: seq<Command> := [];
      var layout: Option<string> := None;
      if c.key.Some? {
        var keyName := c.key.value;
        var prevKey := Get(data, keyName);
        if !arr.value.Obj? {
          return Err(OldParserError(WrongValueFor(c.collection, "[String: Any]", arr.value), c.line, None));
        }
        var dic := arr.value.fields;
        var keys := host.keyOrder(dic);
        ghost var final := ForEntries(host, env, data, c, dic, keys, Empty, fuel);
        var i := 0;
        while i < |keys|
          invariant 0 <= i <= |keys|
          invariant currentName == env.name && viewContent == env.viewContent
          invariant ForEntries(host, env, data, c, dic, keys[i..], Descriptor(res, heads, layout), fuel) == final
        {
          assert keys[i..][0] == keys[i] && keys[i..][1..] == keys[i + 1..];
          var key := keys[i];
          if key in dic {
            data := data[c.value := dic[key]];
            data := data[keyName := Str(key)];
            var desc := RunBody(c.commands, fuel);
            if desc.Err? {
              return Err(desc.error);
            }
            res := res + desc.value.content;
            heads := heads + desc.value.heads;
            if desc.value.layout.Some? {
              layout := desc.value.layout;
            }
          }
          i := i + 1;
        }
        assert keys[i..] == [];
        data := Restore(data, keyName, prevKey);
      } else {
        if !arr.value.Arr? {
          return Err(OldParserError(WrongValueFor(c.collection, "[Any]", arr.value), c.line, None));
        }
        var items := arr.value.items;
        ghost var final := ForItems(host, env, data, c, items, Empty, fuel);
        var i := 0;
        while i < |items|
          invariant 0 <= i <= |items|
          invariant currentName == env.name && viewContent == env.viewContent
          invariant ForItems(host, env, data, c, items[i..], Descriptor(res, heads, layout), fuel) == final
        {
          assert items[i..][0] == items[i] && items[i..][1..] == items[i + 1..];
          data := data[c.value := Unwrap(items[i])];
          var desc := RunBody(c.commands, fuel);
          if desc.Err? {
            return Err(desc.error);
          }
          res := res + desc.value.content;
          heads := heads + desc.value.heads;
          if desc.value.layout.Some? {
            layout := desc.value.layout;
          }
          i := i + 1;
        }
        assert items[i..] == [];
      }
      data := Restore(data, c.value, prevValue);
      return Ok(Descriptor(res, heads, layout));
    }

    /** `parse(if:)`, with the `if let` bindings undone last one first (see
        `Interpretation.InOrderRestoreLeaks` for the order the source uses). */
    method ParseIf(c: Command, fuel: nat) returns (r: Result<Descriptor, InterpretError>)
      requires c.If?
      modifies this
      ensures viewContent == old(viewContent)
      ensures var s := IfFrom(host, Env(old(currentName), old(viewContent)), old(data), c, 0, fuel);
        (r.Ok? <==> s.Ok?) && (r.Err? ==> r.error == s.error) &&
        (r.Ok? ==> r.value == s.value.0 && data == old(data) && currentName == old(currentName))
      decreases fuel, c, 1
    {
      ghost var env := Env(currentName, viewContent);
      var k := 0;
      while k < |c.thens|
        invariant 0 <= k <= |c.thens|
        invariant currentName == env.name && viewContent == env.viewContent && data == old(data)
        invariant IfFrom(host, env, data, c, k, fuel) == IfFrom(host, env, old(data), c, 0, fuel)
      {
        var thenBlock := c.thens[k];
        if thenBlock.conditions == [] {
          k := k + 1;
          continue;
        }
        var allHold, variables := EvaluateConditions(thenBlock.conditions);
        if allHold.Err? {
          return Err(allHold.error);
        }
        if allHold.value {
          assert thenBlock in c.thens;
          var desc := RunBody(thenBlock.block, fuel);
          if desc.Err? {
            return Err(desc.error);
          }
          RestoreBindings(variables);
          return Ok(desc.value);
        } else {
          RestoreBindings(variables);
        }
        k := k + 1;
      }
      if c.els != [] {
        r := RunBody(c.els, fuel);
        return;
      }
      return Ok(Empty);
    }

    /** The conditions loop of `parse(if:)` for one then-block: whether all
        conditions held, with the `if let` bindings made in `data` and the
        values they replaced in `variables`. */
    method EvaluateConditions(conds: seq<Condition>) returns (r: Result<bool, InterpretError>, variables: Bindings)
      modifies this
      ensures currentName == old(currentName) && viewContent == old(viewContent)
      ensures var s := Conditions(host, Env(currentName, viewContent), old(data), conds, []);
        (r.Ok? <==> s.Ok?) && (r.Err? ==> r.error == s.error) && (r.Ok? ==> s.value == (r.value, data, variables))
    {
      ghost var env := Env(currentName, viewContent);
      var superCondition := true;
      variables := [];
      var i := 0;
      while i < |conds|
        invariant 0 <= i <= |conds| && superCondition
        invariant currentName == env.name && viewContent == env.viewContent
        invariant Conditions(host, env, data, conds[i..], variables) == Conditions(host, env, old(data), conds, [])
      {
        assert conds[i..][0] == conds[i] && conds[i..][1..] == conds[i + 1..];
        var condition := conds[i].condition;
        var any := host.evaluate(condition.expression, data);
        if any.Err? {
          return Err(Evaluation(currentName, condition.expression, any.error, condition.line)), variables;
        }
        if conds[i].Simple? {
          if any.value.None? {
            return Err(WrongValue(currentName, "Bool", Str("nil"), condition.line)), variables;
          }
          if !any.value.value.Bool? {
            return Err(WrongValue(currentName, "Bool", any.value.value, condition.line)), variables;
          }
          superCondition := superCondition && any.value.value.b;
        } else if any.value.Some? {
          variables := variables + [(conds[i].variable, Get(data, conds[i].variable))];
          data := data[conds[i].variable := any.value.value];
        } else {
          superCondition := false;
        }
        if !superCondition {
          break;
        }
        i := i + 1;
      }
      if superCondition {
        assert conds[i..] == [];
      }
      return Ok(superCondition), variables;
    }

    /** Undoes `if let` bindings, the last one first: each name gets back
        the value it had before the first of them. */
    method RestoreBindings(variables: Bindings)
      modifies this
      ensures data == RestoreAll(old(data), variables)
      ensures currentName == old(currentName) && viewContent == old(viewContent)
    {
      var j := |variables|;
      assert variables[..j] == variables;
      while j > 0
        invariant 0 <= j <= |variables|
        invariant currentName == old(currentName) && viewContent == old(viewContent)
        invariant RestoreAll(data, variables[..j]) == RestoreAll(old(data), variables)
      {
        assert variables[..j][..j - 1] == variables[..j - 1];
        j := j - 1;
        data := Restore(data, variables[j].0, variables[j].1);
      }
    }
  }

  /** `r` with `p` in front of its text. */
  function Prefixed(p: string, r: Result<string, InterpretError>): (q: Result<string, InterpretError>)
    ensures q.Ok? <==> r.Ok?
    ensures r.Err? ==> q == r
    ensures r.Ok? ==> |q.value| == |p| + |r.value| && q.value[..|p|] == p && q.value[|p|..] == r.value
  {
    if r.Ok? then Ok(p + r.value) else r
  }
}
