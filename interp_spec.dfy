/** What `NutInterpreter.swift` computes, as functions. The data context is a
    map from names to a closed `Value` type; the expression evaluator,
    `String(describing:)`, the `Double` test and `DateFormatter` of `Date`,
    the iteration order of dictionaries and the resolver are supplied by a
    `Host`. Each function returns the data context as the interpreter leaves
    it on success, and its contract says that this is the context it was
    given: loop variables and `if let` bindings are undone. */
module Interpretation {
  import opened Wrappers
  import opened Text
  import opened Commands
  import opened Markup
  import Resolver

  /** The values a template's data can hold. `Null` is an optional holding
      `nil`, which `unwrap(any:)` shows as `"nil"`. */
  datatype Value =
    | Null
    | Bool(b: bool)
    | Int(i: int)
    | Str(s: string)
    | Arr(items: seq<Value>)
    | Obj(fields: map<string, Value>)

  type Data = map<string, Value>

  /** The names saved by `if let` bindings, with the value each had before. */
  type Bindings = seq<(string, Option<Value>)>

  /** The code outside the core the interpreter calls. */
  datatype Host = Host(
    evaluate: (string, Data) -> Result<Option<Value>, string>,
    describe: Value -> string,
    isNumber: string -> bool,
    formatDate: (string, string) -> string,
    keyOrder: Data -> seq<string>,
    views: string -> Result<ViewCommands, Resolver.ResolveError>)

  /** The cases of `OldNutParserError` the interpreter throws. */
  datatype OldKind =
    | EvaluationError(infix: string, message: string)
    | MissingValue(forName: string)
    | WrongValueFor(forName: string, expected: string, got: Value)

  /** Everything `resolve()` can throw: `OldNutParserError` (whose `name` is
      filled in by `resolve()`), the cases of `NutInterpreterError`, the
      resolver's errors, and the end of the depth bound on nested subviews. */
  datatype InterpretError =
    | OldParserError(kind: OldKind, line: int, name: Option<string>)
    | Evaluation(fileName: string, expression: string, causedBy: string, line: int)
    | WrongValue(fileName: string, expecting: string, got: Value, line: int)
    | RecursiveView(fileName: string, line: int)
    | Resolution(error: Resolver.ResolveError)
    | SubviewDepth(subview: string, line: int)

  /** `ViewDescriptor`. */
  datatype Descriptor = Descriptor(content: string, heads: seq<Command>, layout: Option<string>)

  /** The fields of the interpreter a run reads: `currentName` and `viewContent`. */
  datatype Env = Env(name: string, viewContent: Option<string>)

  const Empty := Descriptor("", [], None)

  /** `NutConfig.dateDefaultFormat`. */
  const DateDefaultFormat := "MMM dd yyyy"

  function Piece(s: string): Descriptor {
    Descriptor(s, [], None)
  }

  /** One step of the loops of `run(body:)` and `parse(forIn:)`: the content
      and heads are appended, and a layout replaces the one so far. */
  function Combine(acc: Descriptor, d: Descriptor): (r: Descriptor)
    ensures r.content == acc.content + d.content && r.heads == acc.heads + d.heads
    ensures r.layout == if d.layout.Some? then d.layout else acc.layout
  {
    Descriptor(acc.content + d.content, acc.heads + d.heads, if d.layout.Some? then d.layout else acc.layout)
  }

  lemma CombineAssoc(a: Descriptor, b: Descriptor, c: Descriptor)
    ensures Combine(Combine(a, b), c) == Combine(a, Combine(b, c))
    ensures Combine(Empty, a) == a && Combine(a, Empty) == a
  {
    AppendAssoc(a.content, b.content, c.content);
    AppendAssoc(a.heads, b.heads, c.heads);
  }

  // ---- Data context ----

  /** `data[name]`. */
  function Get(data: Data, name: string): (r: Option<Value>)
    ensures r.Some? <==> name in data
  {
    if name in data then Some(data[name]) else None
  }

  /** `data[name] = previous`: a `nil` removes the name. */
  function Restore(data: Data, name: string, previous: Option<Value>): (r: Data)
    ensures Get(r, name) == previous
    ensures forall n :: n != name ==> Get(r, n) == Get(data, n)
  {
    if previous.Some? then data[name := previous.value] else data - {name}
  }

  lemma SameEntries(a: Data, b: Data)
    requires forall n :: Get(a, n) == Get(b, n)
    ensures a == b
  {
    assert a.Keys == b.Keys by {
      forall n ensures n in a <==> n in b {
        assert Get(a, n).Some? <==> Get(b, n).Some?;
      }
    }
    forall n | n in a ensures a[n] == b[n] {
      assert Get(a, n) == Get(b, n);
    }
  }

  /** `data` and `other` agree on every name outside `names`. */
  ghost predicate AgreeExcept(data: Data, other: Data, names: set<string>) {
    forall n :: n !in names ==> Get(data, n) == Get(other, n)
  }

  /** Putting back what a name held before undoes setting it. */
  lemma RestoreUndoes(data: Data, changed: Data, name: string)
    requires AgreeExcept(changed, data, {name})
    ensures Restore(changed, name, Get(data, name)) == data
  {
    SameEntries(Restore(changed, name, Get(data, name)), data);
  }

  lemma RestoreUndoesTwo(data: Data, changed: Data, first: string, second: string)
    requires AgreeExcept(changed, data, {first, second})
    ensures Restore(Restore(changed, first, Get(data, first)), second, Get(data, second)) == data
  {
    SameEntries(Restore(Restore(changed, first, Get(data, first)), second, Get(data, second)), data);
  }

  /** The corrected undoing of `if let` bindings: the last binding first, so
      each name ends with the value it had before the first binding. */
  function RestoreAll(data: Data, saved: Bindings): Data
    decreases |saved|
  {
    if saved == [] then data
    else RestoreAll(Restore(data, saved[|saved| - 1].0, saved[|saved| - 1].1), saved[..|saved| - 1])
  }

  /** The undoing as `parse(if:)` writes it: `variables.forEach`, the first
      binding first. */
  function RestoreInOrder(data: Data, saved: Bindings): Data
    decreases |saved|
  {
    if saved == [] then data
    else RestoreInOrder(Restore(data, saved[0].0, saved[0].1), saved[1..])
  }

  /** Undone last first, each recorded name gets back the value saved at its
      first binding; names never bound keep their values. */
  lemma {:induction false} RestoreAllFirstValues(data: Data, saved: Bindings)
    ensures forall k :: 0 <= k < |saved| && (forall m :: 0 <= m < k ==> saved[m].0 != saved[k].0) ==>
      Get(RestoreAll(data, saved), saved[k].0) == saved[k].1
    ensures forall n :: (forall k :: 0 <= k < |saved| ==> saved[k].0 != n) ==>
      Get(RestoreAll(data, saved), n) == Get(data, n)
    decreases |saved|
  {
    if saved != [] {
      var last := saved[|saved| - 1];
      var earlier := saved[..|saved| - 1];
      var restored := Restore(data, last.0, last.1);
      var r := RestoreAll(restored, earlier);
      RestoreAllFirstValues(restored, earlier);
      assert RestoreAll(data, saved) == r;
      forall k | 0 <= k < |saved| && (forall m :: 0 <= m < k ==> saved[m].0 != saved[k].0)
        ensures Get(r, saved[k].0) == saved[k].1
      {
        if k < |earlier| {
          assert forall m :: 0 <= m <= k ==> earlier[m] == saved[m];
          assert forall m :: 0 <= m < k ==> earlier[m].0 != earlier[k].0;
        } else {
          assert forall m :: 0 <= m < |earlier| ==> earlier[m].0 != last.0 by {
            assert forall m :: 0 <= m < |earlier| ==> earlier[m] == saved[m];
          }
          assert Get(r, last.0) == Get(restored, last.0);
        }
      }
      forall n | (forall k :: 0 <= k < |saved| ==> saved[k].0 != n)
        ensures Get(r, n) == Get(data, n)
      {
        assert forall m :: 0 <= m < |earlier| ==> earlier[m] == saved[m];
      }
    }
  }

  /** Undone first to last, each recorded name gets back the value saved at
      its last binding; names never bound keep their values. */
  lemma {:induction false} RestoreInOrderLastValues(data: Data, saved: Bindings)
    ensures forall k :: 0 <= k < |saved| && (forall m :: k < m < |saved| ==> saved[m].0 != saved[k].0) ==>
      Get(RestoreInOrder(data, saved), saved[k].0) == saved[k].1
    ensures forall n :: (forall k :: 0 <= k < |saved| ==> saved[k].0 != n) ==>
      Get(RestoreInOrder(data, saved), n) == Get(data, n)
    decreases |saved|
  {
    if saved != [] {
      var first := saved[0];
      var later := saved[1..];
      var restored := Restore(data, first.0, first.1);
      var r := RestoreInOrder(restored, later);
      RestoreInOrderLastValues(restored, later);
      assert RestoreInOrder(data, saved) == r;
      assert forall m :: 0 <= m < |later| ==> later[m] == saved[m + 1];
      forall k | 0 <= k < |saved| && (forall m :: k < m < |saved| ==> saved[m].0 != saved[k].0)
        ensures Get(r, saved[k].0) == saved[k].1
      {
        if k > 0 {
          assert forall m :: k - 1 < m < |later| ==> later[m].0 != later[k - 1].0;
        } else {
          assert forall m :: 0 <= m < |later| ==> later[m].0 != first.0;
          assert Get(r, first.0) == Get(restored, first.0);
        }
      }
      forall n | (forall k :: 0 <= k < |saved| ==> saved[k].0 != n)
        ensures Get(r, n) == Get(data, n)
      {
        assert forall m :: 0 <= m < |later| ==> later[m].0 != n;
      }
    }
  }

  // ---- Values ----

  /** `unwrap(any:)` with its default `"nil"`. */
  function Unwrap(v: Value): (r: Value)
    ensures !r.Null?
    ensures v.Null? ==> r == Str("nil")
    ensures !v.Null? ==> r == v
  {
    if v.Null? then Str("nil") else v
  }

  predicate DotFree(s: string) {
    forall k :: 0 <= k < |s| ==> s[k] != '.'
  }

  /** `getValue(name:from:)`: a dotted name descends through nested objects,
      and `x.count` with one dot is the length of the array or object `x`. */
  function GetValue(name: string, data: Data): (r: Option<Value>)
    ensures DotFree(name) ==> r == (if name in data then Some(Unwrap(data[name])) else None)
    decreases |name|
  {
    match FindFrom(name, ".", 0)
    case None =>
      assert DotFree(name) by {
        forall k | 0 <= k < |name| ensures name[k] != '.' {
          assert !OccursAt(name, ".", k);
          assert name[k..k + 1] == [name[k]];
        }
      }
      if name in data then Some(Unwrap(data[name])) else None
    case Some(i) =>
      assert name[i] == '.' by { assert name[i..i + 1] == "."; }
      var first := name[..i];
      var rest := name[i + 1..];
      if rest == "count" && first in data && data[first].Arr? then Some(Int(|data[first].items|))
      else if rest == "count" && first in data && data[first].Obj? then Some(Int(|data[first].fields|))
      else if first in data && data[first].Obj? then GetValue(rest, data[first].fields)
      else None
  }

  /** The same lookup over the segments of the name, one object per segment. */
  function Lookup(segments: seq<string>, data: Data): Option<Value>
    requires |segments| > 0
  {
    var first := segments[0];
    if |segments| == 1 then (if first in data then Some(Unwrap(data[first])) else None)
    else if |segments| == 2 && segments[1] == "count" && first in data && data[first].Arr? then
      Some(Int(|data[first].items|))
    else if |segments| == 2 && segments[1] == "count" && first in data && data[first].Obj? then
      Some(Int(|data[first].fields|))
    else if first in data && data[first].Obj? then Lookup(segments[1..], data[first].fields)
    else None
  }

  lemma {:induction false} JoinFront(parts: seq<string>, sep: string)
    requires |parts| >= 2
    ensures Join(parts, sep) == parts[0] + sep + Join(parts[1..], sep)
    decreases |parts|
  {
    if |parts| > 2 {
      var n := |parts|;
      JoinFront(parts[..n - 1], sep);
      assert parts[..n - 1][1..] == parts[1..][..n - 2];
      assert parts[..n - 1][0] == parts[0];
    }
  }

  /** The first dot of `first.rest` is the one after `first`. */
  lemma DotAfter(first: string, rest: string)
    requires DotFree(first)
    ensures var name := first + "." + rest;
      FindFrom(name, ".", 0) == Some(|first|) && name[..|first|] == first && name[|first| + 1..] == rest
  {
    var name := first + "." + rest;
    assert OccursAt(name, ".", |first|) by { assert name[|first|..|first| + 1] == "."; }
    forall k | 0 <= k < |first| ensures !OccursAt(name, ".", k) {
      assert name[k..k + 1] == [first[k]];
    }
    assert name[..|first|] == first;
    assert name[|first| + 1..] == rest;
  }

  /** Two or more segments joined by dots hold a dot. */
  lemma JoinedHasDot(segments: seq<string>)
    requires |segments| >= 2
    ensures !DotFree(Join(segments, "."))
  {
    JoinFront(segments, ".");
    var name := Join(segments, ".");
    assert name[|segments[0]|] == '.';
  }

  /** The first dot of a joined dotted name ends its first segment. */
  lemma FirstDot(segments: seq<string>)
    requires |segments| >= 2 && DotFree(segments[0])
    ensures var name := Join(segments, ".");
      FindFrom(name, ".", 0) == Some(|segments[0]|)
      && name[..|segments[0]|] == segments[0] && name[|segments[0]| + 1..] == Join(segments[1..], ".")
    ensures |segments| > 2 ==> Join(segments[1..], ".") != "count"
  {
    JoinFront(segments, ".");
    DotAfter(segments[0], Join(segments[1..], "."));
    if |segments| > 2 {
      JoinedHasDot(segments[1..]);
      assert DotFree("count");
    }
  }

  /** `getValue` over `a.b.c` is the segment-by-segment lookup of `a`, `b`,
      `c`: `components(separatedBy:)` and `joined(separator:)` are inverse
      for dot-free segments. */
  lemma {:induction false} GetValueBySegments(segments: seq<string>, data: Data)
    requires |segments| > 0
    requires forall k :: 0 <= k < |segments| ==> DotFree(segments[k])
    ensures GetValue(Join(segments, "."), data) == Lookup(segments, data)
    decreases |segments|
  {
    if |segments| >= 2 {
      assert DotFree(segments[0]);
      FirstDot(segments);
      if |segments| == 2 {
        assert Join(segments[1..], ".") == segments[1];
      }
      var first := segments[0];
      if first in data && data[first].Obj? {
        GetValueBySegments(segments[1..], data[first].fields);
      }
    }
  }

  /** `x.count` is the number of elements of the array or object `x`. */
  lemma CountOfCollection(x: string, data: Data)
    requires DotFree(x) && x in data
    ensures data[x].Arr? ==> GetValue(x + ".count", data) == Some(Int(|data[x].items|))
    ensures data[x].Obj? ==> GetValue(x + ".count", data) == Some(Int(|data[x].fields|))
  {
    assert Join([x, "count"], ".") == x + ".count";
    assert DotFree("count");
    GetValueBySegments([x, "count"], data);
  }

  // ---- Expressions ----

  /** `parse(rawExpression:)`: the evaluated value as text, `nil` as `"nil"`. */
  function RawExpression(h: Host, data: Data, e: Expr): (r: Result<string, InterpretError>)
    ensures r.Err? <==> h.evaluate(e.expression, data).Err?
    ensures h.evaluate(e.expression, data).Err? ==>
      r == Err(OldParserError(EvaluationError(e.expression, h.evaluate(e.expression, data).error), e.line, None))
  {
    match h.evaluate(e.expression, data)
    case Err(message) => Err(OldParserError(EvaluationError(e.expression, message), e.line, None))
    case Ok(v) => Ok(h.describe(Unwrap(if v.Some? then v.value else Str("nil"))))
  }

  /** `parse(expression:)`: the same text, HTML-escaped. */
  function EscapedExpression(h: Host, data: Data, e: Expr): (r: Result<string, InterpretError>)
    ensures RawExpression(h, data, e).Err? ==> r == RawExpression(h, data, e)
    ensures r.Ok? ==> SafeText(r.value) && Unescaped(r.value) == RawExpression(h, data, e).value
  {
    var s :- RawExpression(h, data, e);
    EscapedIsSafe(s);
    UnescapeEscaped(s);
    Ok(ConvertToSpecialCharacters(s))
  }

  /** `parse(title:)`. */
  function TitleText(h: Host, data: Data, e: Expr): (r: Result<string, InterpretError>)
    ensures r.Ok? <==> RawExpression(h, data, e).Ok?
    ensures r.Ok? ==>
      var t := r.value;
      |t| >= 15 && t[..7] == "<title>" && t[|t| - 8..] == "</title>"
      && SafeText(t[7..|t| - 8]) && Unescaped(t[7..|t| - 8]) == RawExpression(h, data, e).value
  {
    var s :- EscapedExpression(h, data, e);
    var t := "<title>" + s + "</title>";
    assert t[..7] == "<title>" && t[7..|t| - 8] == s && t[|t| - 8..] == "</title>";
    Ok(t)
  }

  /** `parse(date:)`: the date expression must read as a number; the format
      is the given expression or the default format as a string literal. */
  function DateText(h: Host, data: Data, date: Expr, format: Option<Expr>, line: int): (r: Result<string, InterpretError>)
    ensures RawExpression(h, data, date).Ok? && !h.isNumber(RawExpression(h, data, date).value) ==>
      r == Err(OldParserError(WrongValueFor("Date(_:format:)", "Double", Str(RawExpression(h, data, date).value)),
                              date.line, None))
  {
    var dateStr :- RawExpression(h, data, date);
    if !h.isNumber(dateStr) then
      Err(OldParserError(WrongValueFor("Date(_:format:)", "Double", Str(dateStr)), date.line, None))
    else
      var f := if format.None? then Expr("\"" + DateDefaultFormat + "\"", line) else format.value;
      var formatStr :- RawExpression(h, data, f);
      Ok(h.formatDate(dateStr, formatStr))
  }

  /** The `default:` branches: an escaped `UnknownToken<id>`. */
  function UnknownToken(c: Command): (r: string)
    ensures SafeText(r) && Unescaped(r) == "UnknownToken<" + CommandTypeRaw(Kind(c)) + ">\n"
  {
    var text := "UnknownToken<" + CommandTypeRaw(Kind(c)) + ">\n";
    EscapedIsSafe(text);
    UnescapeEscaped(text);
    ConvertToSpecialCharacters(text)
  }

  /** A head command whose title expression fails. */
  predicate TitleFails(h: Host, data: Data, c: Command) {
    c.Title? && TitleText(h, data, c.expr).Err?
  }

  /** `run(head:)`. */
  function RunHead(h: Host, data: Data, heads: seq<Command>): (r: Result<string, InterpretError>)
    ensures r.Err? <==> exists k :: 0 <= k < |heads| && TitleFails(h, data, heads[k])
  {
    if heads == [] then Ok("")
    else
      assert (exists k :: 0 <= k < |heads| && TitleFails(h, data, heads[k]))
        <==> TitleFails(h, data, heads[0]) || exists k :: 0 <= k < |heads[1..]| && TitleFails(h, data, heads[1..][k]) by {
        assert forall k :: 1 <= k < |heads| ==> heads[k] == heads[1..][k - 1];
      }
      var first :- if heads[0].Title? then TitleText(h, data, heads[0].expr) else Ok(UnknownToken(heads[0]));
      var rest :- RunHead(h, data, heads[1..]);
      Ok(first + rest)
  }

  /** `resolver.viewCommands(for:)`. */
  function View(h: Host, name: string): Result<ViewCommands, InterpretError> {
    match h.views(name)
    case Err(e) => Err(Resolution(e))
    case Ok(v) => Ok(v)
  }

  // ---- Conditions of `if` ----

  /** The conditions of one then-block, evaluated in order with the `if let`
      bindings made so far: whether all held, the context with the new
      bindings, and the bindings saved so far. A simple condition that is
      `false`, or a cast whose value is `nil`, stops the evaluation. */
  function Conditions(h: Host, env: Env, data: Data, conds: seq<Condition>, saved: Bindings)
    : (r: Result<(bool, Data, Bindings), InterpretError>)
    ensures r.Ok? ==> RestoreAll(r.value.1, r.value.2) == RestoreAll(data, saved)
    ensures r.Ok? ==> |saved| <= |r.value.2| && r.value.2[..|saved|] == saved
    decreases |conds|
  {
    if conds == [] then Ok((true, data, saved))
    else
      var cond := conds[0].condition;
      match h.evaluate(cond.expression, data)
      case Err(message) => Err(Evaluation(env.name, cond.expression, message, cond.line))
      case Ok(v) =>
        if conds[0].Simple? then
          if v.None? then Err(WrongValue(env.name, "Bool", Str("nil"), cond.line))
          else if !v.value.Bool? then Err(WrongValue(env.name, "Bool", v.value, cond.line))
          else if !v.value.b then Ok((false, data, saved))
          else Conditions(h, env, data, conds[1..], saved)
        else if v.None? then Ok((false, data, saved))
        else
          var name := conds[0].variable;
          var saved' := saved + [(name, Get(data, name))];
          RestoreUndoes(data, data[name := v.value], name);
          assert saved'[..|saved|] == saved;
          var r := Conditions(h, env, data[name := v.value], conds[1..], saved');
          assert r.Ok? ==> r.value.2[..|saved|] == saved by {
            if r.Ok? { assert r.value.2[..|saved|] == r.value.2[..|saved'|][..|saved|]; }
          }
          r
  }

  /** The errors of the first condition: the evaluator's error, and for a
      simple condition a value that is `nil` or not a `Bool`. */
  lemma ConditionErrors(h: Host, env: Env, data: Data, cond: Condition, more: seq<Condition>, saved: Bindings)
    ensures h.evaluate(cond.condition.expression, data).Err? ==>
      Conditions(h, env, data, [cond] + more, saved)
        == Err(Evaluation(env.name, cond.condition.expression,
                          h.evaluate(cond.condition.expression, data).error, cond.condition.line))
    ensures cond.Simple? && h.evaluate(cond.condition.expression, data) == Ok(None) ==>
      Conditions(h, env, data, [cond] + more, saved) == Err(WrongValue(env.name, "Bool", Str("nil"), cond.condition.line))
    ensures cond.Simple? && h.evaluate(cond.condition.expression, data).Ok?
              && h.evaluate(cond.condition.expression, data).value.Some?
              && !h.evaluate(cond.condition.expression, data).value.value.Bool? ==>
      Conditions(h, env, data, [cond] + more, saved)
        == Err(WrongValue(env.name, "Bool", h.evaluate(cond.condition.expression, data).value.value, cond.condition.line))
  {
    assert ([cond] + more)[0] == cond;
  }

  /** Evaluation stops at the first condition that fails: what follows it is
      never evaluated, so it can neither bind a name nor raise an error. */
  lemma {:induction false} ConditionsStopAtFailure(h: Host, env: Env, data: Data, conds: seq<Condition>,
                                                   more: seq<Condition>, saved: Bindings)
    requires Conditions(h, env, data, conds, saved).Ok? && !Conditions(h, env, data, conds, saved).value.0
    ensures Conditions(h, env, data, conds + more, saved) == Conditions(h, env, data, conds, saved)
    decreases |conds|
  {
    assert conds != [];
    assert (conds + more)[0] == conds[0] && (conds + more)[1..] == conds[1..] + more;
    var cond := conds[0].condition;
    var v := h.evaluate(cond.expression, data).value;
    if conds[0].Simple? {
      if v.value.b {
        ConditionsStopAtFailure(h, env, data, conds[1..], more, saved);
      }
    } else if v.Some? {
      var name := conds[0].variable;
      ConditionsStopAtFailure(h, env, data[name := v.value], conds[1..], more, saved + [(name, Get(data, name))]);
    }
  }

  // ---- Running commands ----

  /** `run(body:)` from the descriptor `acc` built so far. */
  function RunSeq(h: Host, env: Env, data: Data, body: seq<Command>, acc: Descriptor, fuel: nat)
    : (r: Result<(Descriptor, Data), InterpretError>)
    ensures r.Ok? ==> r.value.1 == data
    decreases fuel, body, 0
  {
    if body == [] then Ok((acc, data))
    else
      var step :- RunCommand(h, env, data, body[0], fuel);
      RunSeq(h, env, step.1, body[1..], Combine(acc, step.0), fuel)
  }

  /** One case of the `switch` of `run(body:)`: what the command adds. */
  function RunCommand(h: Host, env: Env, data: Data, c: Command, fuel: nat)
    : (r: Result<(Descriptor, Data), InterpretError>)
    ensures r.Ok? ==> r.value.1 == data
    decreases fuel, c, 2
  {
    match c
    case EscapedValue(e, line) =>
      var s :- EscapedExpression(h, data, Expr(e, line));
      Ok((Piece(s), data))
    case RawValue(e, line) =>
      var s :- RawExpression(h, data, Expr(e, line));
      Ok((Piece(s), data))
    case For(_, _, _, _, _) => ForCommand(h, env, data, c, fuel)
    case If(_, _, _) => IfFrom(h, env, data, c, 0, fuel)
    case Html(value, _) => Ok((Piece(value), data))
    case Date(date, format, line) =>
      var s :- DateText(h, data, date, format, line);
      Ok((Piece(s), data))
    case InsertView(line) =>
      if env.viewContent.None? then Err(RecursiveView(env.name, line))
      else Ok((Piece(env.viewContent.value), data))
    case Subview(e, line) =>
      var subName :- RawExpression(h, data, e);
      var sub :- View(h, "Subviews." + subName);
      if fuel == 0 then Err(SubviewDepth(subName, line))
      else RunSeq(h, env.(name := subName), data, sub.body, Empty, fuel - 1)
    case Layout(e, _) =>
      var layoutName :- RawExpression(h, data, e);
      Ok((Descriptor("", [], Some(layoutName)), data))
    case Title(_, _) => Ok((Descriptor("", [c], None), data))
    case Head(_, _) => Ok((Piece(UnknownToken(c)), data))
    case Body(_, _) => Ok((Piece(UnknownToken(c)), data))
  }

  /** `parse(forIn:)`: the collection must exist, be an object when a key
      variable is given and an array otherwise; afterwards the loop
      variables hold what they held before, or are absent again. */
  function ForCommand(h: Host, env: Env, data: Data, c: Command, fuel: nat)
    : (r: Result<(Descriptor, Data), InterpretError>)
    requires c.For?
    ensures r.Ok? ==> r.value.1 == data
    ensures GetValue(c.collection, data).None? ==> r == Err(OldParserError(MissingValue(c.collection), c.line, None))
    ensures GetValue(c.collection, data).Some? && c.key.Some? && !GetValue(c.collection, data).value.Obj? ==>
      r == Err(OldParserError(WrongValueFor(c.collection, "[String: Any]", GetValue(c.collection, data).value), c.line, None))
    ensures GetValue(c.collection, data).Some? && c.key.None? && !GetValue(c.collection, data).value.Arr? ==>
      r == Err(OldParserError(WrongValueFor(c.collection, "[Any]", GetValue(c.collection, data).value), c.line, None))
    decreases fuel, c, 1
  {
    var collection := GetValue(c.collection, data);
    if collection.None? then Err(OldParserError(MissingValue(c.collection), c.line, None))
    else if c.key.Some? then
      if !collection.value.Obj? then
        Err(OldParserError(WrongValueFor(c.collection, "[String: Any]", collection.value), c.line, None))
      else
        var dic := collection.value.fields;
        var loop :- ForEntries(h, env, data, c, dic, h.keyOrder(dic), Empty, fuel);
        RestoreUndoesTwo(data, loop.1, c.key.value, c.value);
        Ok((loop.0, Restore(Restore(loop.1, c.key.value, Get(data, c.key.value)), c.value, Get(data, c.value))))
    else if !collection.value.Arr? then
      Err(OldParserError(WrongValueFor(c.collection, "[Any]", collection.value), c.line, None))
    else
      var loop :- ForItems(h, env, data, c, collection.value.items, Empty, fuel);
      RestoreUndoes(data, loop.1, c.value);
      Ok((loop.0, Restore(loop.1, c.value, Get(data, c.value))))
  }

  /** The array form of the loop: the body once per item, with the value
      variable set to the unwrapped item. */
  function ForItems(h: Host, env: Env, data: Data, c: Command, items: seq<Value>, acc: Descriptor, fuel: nat)
    : (r: Result<(Descriptor, Data), InterpretError>)
    requires c.For?
    ensures r.Ok? ==> AgreeExcept(r.value.1, data, {c.value})
    decreases fuel, c, 0, items
  {
    if items == [] then Ok((acc, data))
    else
      var run :- RunSeq(h, env, data[c.value := Unwrap(items[0])], c.commands, Empty, fuel);
      ForItems(h, env, run.1, c, items[1..], Combine(acc, run.0), fuel)
  }

  /** The mapping form of the loop, over the keys in the order `keys` lists
      them: the value variable set to the entry, then the key variable to the
      key. */
  function ForEntries(h: Host, env: Env, data: Data, c: Command, dic: Data, keys: seq<string>,
                      acc: Descriptor, fuel: nat)
    : (r: Result<(Descriptor, Data), InterpretError>)
    requires c.For? && c.key.Some?
    ensures r.Ok? ==> AgreeExcept(r.value.1, data, {c.key.value, c.value})
    decreases fuel, c, 0, keys
  {
    if keys == [] then Ok((acc, data))
    else if keys[0] !in dic then ForEntries(h, env, data, c, dic, keys[1..], acc, fuel)
    else
      var bound := data[c.value := dic[keys[0]]][c.key.value := Str(keys[0])];
      var run :- RunSeq(h, env, bound, c.commands, Empty, fuel);
      ForEntries(h, env, run.1, c, dic, keys[1..], Combine(acc, run.0), fuel)
  }

  /** `parse(if:)` from then-block `k` on: the first block whose conditions
      all hold runs, its bindings undone afterwards; rejected blocks undo
      theirs too. With no block taken, the else body runs. */
  function IfFrom(h: Host, env: Env, data: Data, c: Command, k: nat, fuel: nat)
    : (r: Result<(Descriptor, Data), InterpretError>)
    requires c.If? && k <= |c.thens|
    ensures r.Ok? ==> r.value.1 == data
    decreases fuel, c, 0, |c.thens| - k
  {
    if k == |c.thens| then
      if c.els != [] then RunSeq(h, env, data, c.els, Empty, fuel) else Ok((Empty, data))
    else if c.thens[k].conditions == [] then IfFrom(h, env, data, c, k + 1, fuel)
    else
      var test :- Conditions(h, env, data, c.thens[k].conditions, []);
      if test.0 then
        assert c.thens[k] in c.thens;
        var run :- RunSeq(h, env, test.1, c.thens[k].block, Empty, fuel);
        Ok((run.0, RestoreAll(run.1, test.2)))
      else IfFrom(h, env, RestoreAll(test.1, test.2), c, k + 1, fuel)
  }

  // ---- resolve() ----

  /** The body of the `do` of `resolve()`: the view, then its layout with the
      view's content as `viewContent`, then the heads of both. The result is
      the page and the new `viewContent`. */
  function PageBody(h: Host, name: string, vc: ViewCommands, data: Data, viewContent: Option<string>, fuel: nat)
    : (r: Result<(string, string), InterpretError>)
    ensures var main := RunSeq(h, Env(name, viewContent), data, vc.body, Empty, fuel);
      (main.Err? ==> r == Err(main.error))
      && (r.Ok? ==> main.Ok? && r.value.1 == main.value.0.content)
      && (main.Ok? && main.value.0.layout.None? && main.value.0.heads == [] ==>
            r == Ok((main.value.0.content, main.value.0.content)))
  {
    var main :- RunSeq(h, Env(name, viewContent), data, vc.body, Empty, fuel);
    var desc := main.0;
    var page :-
      if desc.layout.None? then Ok((desc.content, desc.heads))
      else
        var layoutName := "Layouts." + desc.layout.value;
        var layout :- View(h, layoutName);
        var run :- RunSeq(h, Env(layoutName, Some(desc.content)), data, layout.body, Empty, fuel);
        Ok((run.0.content, desc.heads + run.0.heads));
    if page.1 == [] then Ok((page.0, desc.content))
    else
      var headResult :- RunHead(h, data, page.1);
      Ok((InjectHead(page.0, headResult), desc.content))
  }

  /** `resolve()` for the interpreter whose `viewName` is `viewName` and whose
      `currentName` is `current`: an `OldNutParserError` without a file name
      gets the file name of the view. */
  function Page(h: Host, viewName: string, current: string, data: Data, viewContent: Option<string>, fuel: nat)
    : (r: Result<(string, string), InterpretError>)
    ensures r.Ok? ==> View(h, viewName).Ok? && r == PageBody(h, current, View(h, viewName).value, data, viewContent, fuel)
    ensures r.Err? && r.error.OldParserError? && View(h, viewName).Ok? ==> r.error.name.Some?
  {
    var vc :- View(h, viewName);
    match PageBody(h, current, vc, data, viewContent, fuel)
    case Ok(page) => Ok(page)
    case Err(e) => Err(if e.OldParserError? && e.name.None? then e.(name := Some(vc.fileName)) else e)
  }

  // ---- Properties of a run ----

  /** Running `a + b` runs `a`, then `b` from where `a` left the descriptor. */
  lemma {:induction false} RunSeqAppend(h: Host, env: Env, data: Data, a: seq<Command>, b: seq<Command>,
                                        acc: Descriptor, fuel: nat)
    ensures RunSeq(h, env, data, a + b, acc, fuel) ==
      match RunSeq(h, env, data, a, acc, fuel)
      case Err(e) => Err(e)
      case Ok(run) => RunSeq(h, env, data, b, run.0, fuel)
    decreases |a|
  {
    if a == [] {
      assert a + b == b;
    } else {
      assert (a + b)[0] == a[0] && (a + b)[1..] == a[1..] + b;
      var step := RunCommand(h, env, data, a[0], fuel);
      if step.Ok? {
        RunSeqAppend(h, env, data, a[1..], b, Combine(acc, step.value.0), fuel);
      }
    }
  }

  /** The descriptor built so far only prefixes what the rest adds: output
      and heads are concatenated in command order, and the last layout set
      wins. */
  lemma {:induction false} RunSeqFrom(h: Host, env: Env, data: Data, body: seq<Command>, acc: Descriptor, fuel: nat)
    ensures RunSeq(h, env, data, body, acc, fuel) ==
      match RunSeq(h, env, data, body, Empty, fuel)
      case Err(e) => Err(e)
      case Ok(run) => Ok((Combine(acc, run.0), data))
    decreases |body|
  {
    CombineAssoc(acc, Empty, Empty);
    if body != [] {
      var step := RunCommand(h, env, data, body[0], fuel);
      if step.Ok? {
        RunSeqFrom(h, env, data, body[1..], Combine(acc, step.value.0), fuel);
        RunSeqFrom(h, env, data, body[1..], Combine(Empty, step.value.0), fuel);
        var rest := RunSeq(h, env, data, body[1..], Empty, fuel);
        if rest.Ok? {
          CombineAssoc(acc, step.value.0, rest.value.0);
          CombineAssoc(step.value.0, Empty, Empty);
        }
      }
    }
  }

  /** The output of a body is the output of its first command followed by
      that of the rest. */
  lemma OutputInOrder(h: Host, env: Env, data: Data, c: Command, rest: seq<Command>, fuel: nat)
    ensures var first := RunCommand(h, env, data, c, fuel);
      var r := RunSeq(h, env, data, [c] + rest, Empty, fuel);
      (first.Err? ==> r == Err(first.error))
      && (first.Ok? ==> r == match RunSeq(h, env, data, rest, Empty, fuel)
                              case Err(e) => Err(e)
                              case Ok(run) => Ok((Combine(first.value.0, run.0), data)))
  {
    var first := RunCommand(h, env, data, c, fuel);
    assert ([c] + rest)[0] == c && ([c] + rest)[1..] == rest;
    if first.Ok? {
      CombineAssoc(first.value.0, Empty, Empty);
      RunSeqFrom(h, env, data, rest, Combine(Empty, first.value.0), fuel);
    }
  }

  /** A `Layout` at the end of a body sets the layout whatever came before,
      and adds neither output nor heads. */
  lemma LastLayoutWins(h: Host, env: Env, data: Data, body: seq<Command>, e: Expr, line: int, fuel: nat)
    requires RunSeq(h, env, data, body, Empty, fuel).Ok? && RawExpression(h, data, e).Ok?
    ensures var before := RunSeq(h, env, data, body, Empty, fuel).value.0;
      RunSeq(h, env, data, body + [Layout(e, line)], Empty, fuel)
        == Ok((Descriptor(before.content, before.heads, Some(RawExpression(h, data, e).value)), data))
  {
    RunSeqAppend(h, env, data, body, [Layout(e, line)], Empty, fuel);
    var before := RunSeq(h, env, data, body, Empty, fuel).value.0;
    assert before.content + "" == before.content && before.heads + [] == before.heads;
  }

  /** A `Title` goes to the heads, after those before it, and not to the output. */
  lemma TitleGoesToHeads(h: Host, env: Env, data: Data, body: seq<Command>, e: Expr, line: int, fuel: nat)
    requires RunSeq(h, env, data, body, Empty, fuel).Ok?
    ensures var before := RunSeq(h, env, data, body, Empty, fuel).value.0;
      RunSeq(h, env, data, body + [Title(e, line)], Empty, fuel)
        == Ok((Descriptor(before.content, before.heads + [Title(e, line)], before.layout), data))
  {
    RunSeqAppend(h, env, data, body, [Title(e, line)], Empty, fuel);
    var before := RunSeq(h, env, data, body, Empty, fuel).value.0;
    assert before.content + "" == before.content;
  }

  /** Until `resolve()` has set `viewContent`, an `InsertView` fails. */
  lemma InsertViewNeedsContent(h: Host, env: Env, data: Data, line: int, fuel: nat)
    requires env.viewContent.None?
    ensures RunCommand(h, env, data, InsertView(line), fuel) == Err(RecursiveView(env.name, line))
  {
  }

  /** Then-block `j` is passed over: it has no conditions or they fail. */
  ghost predicate Rejected(h: Host, env: Env, data: Data, t: ThenBlock) {
    t.conditions == []
    || (Conditions(h, env, data, t.conditions, []).Ok? && !Conditions(h, env, data, t.conditions, []).value.0)
  }

  /** Then-blocks are tried in order: every block before `k` is passed over
      with the context restored, and the first whose conditions all hold
      runs, its bindings undone afterwards. */
  lemma IfTakesFirstBranch(h: Host, env: Env, data: Data, c: Command, j: nat, k: nat, fuel: nat)
    requires c.If? && j <= k < |c.thens|
    requires forall i :: j <= i < k ==> Rejected(h, env, data, c.thens[i])
    requires c.thens[k].conditions != []
    requires Conditions(h, env, data, c.thens[k].conditions, []).Ok?
    requires Conditions(h, env, data, c.thens[k].conditions, []).value.0
    ensures var test := Conditions(h, env, data, c.thens[k].conditions, []).value;
      IfFrom(h, env, data, c, j, fuel) ==
        match RunSeq(h, env, test.1, c.thens[k].block, Empty, fuel)
        case Err(e) => Err(e)
        case Ok(run) => Ok((run.0, data))
  {
    IfSkipsAll(h, env, data, c, j, k, fuel);
    IfRunsAccepted(h, env, data, c, k, fuel);
  }

  /** Passed-over then-blocks from `j` up to `k` leave the context as it was. */
  lemma {:induction false} IfSkipsAll(h: Host, env: Env, data: Data, c: Command, j: nat, k: nat, fuel: nat)
    requires c.If? && j <= k <= |c.thens|
    requires forall i :: j <= i < k ==> Rejected(h, env, data, c.thens[i])
    ensures IfFrom(h, env, data, c, j, fuel) == IfFrom(h, env, data, c, k, fuel)
    decreases k - j
  {
    if j < k {
      IfSkipsRejected(h, env, data, c, j, fuel);
      IfSkipsAll(h, env, data, c, j + 1, k, fuel);
    }
  }

  /** A passed-over then-block leaves the context as it was for the next. */
  lemma IfSkipsRejected(h: Host, env: Env, data: Data, c: Command, j: nat, fuel: nat)
    requires c.If? && j < |c.thens| && Rejected(h, env, data, c.thens[j])
    ensures IfFrom(h, env, data, c, j, fuel) == IfFrom(h, env, data, c, j + 1, fuel)
  {
    assert RestoreAll(data, []) == data;
  }

  /** A then-block whose conditions all hold runs, its bindings undone. */
  lemma IfRunsAccepted(h: Host, env: Env, data: Data, c: Command, k: nat, fuel: nat)
    requires c.If? && k < |c.thens| && c.thens[k].conditions != []
    requires Conditions(h, env, data, c.thens[k].conditions, []).Ok?
    requires Conditions(h, env, data, c.thens[k].conditions, []).value.0
    ensures var test := Conditions(h, env, data, c.thens[k].conditions, []).value;
      IfFrom(h, env, data, c, k, fuel) ==
        match RunSeq(h, env, test.1, c.thens[k].block, Empty, fuel)
        case Err(e) => Err(e)
        case Ok(run) => Ok((run.0, data))
  {
    assert RestoreAll(data, []) == data;
  }

  /** When every then-block is passed over, the else body runs, and an `If`
      without one adds nothing. */
  lemma IfFallsToElse(h: Host, env: Env, data: Data, c: Command, j: nat, fuel: nat)
    requires c.If? && j <= |c.thens|
    requires forall i :: j <= i < |c.thens| ==> Rejected(h, env, data, c.thens[i])
    ensures IfFrom(h, env, data, c, j, fuel) ==
      if c.els == [] then Ok((Empty, data)) else RunSeq(h, env, data, c.els, Empty, fuel)
  {
    IfSkipsAll(h, env, data, c, j, |c.thens|, fuel);
  }

  /** An evaluator for which `a` is 1 and every other expression is 2. */
  function TwoValues(e: string, data: Data): Result<Option<Value>, string> {
    if e == "a" then Ok(Some(Int(1))) else Ok(Some(Int(2)))
  }

  /** `if let x = a, let x = b` with `x` unset before: undone first binding
      first, as `parse(if:)` does, `x` is left holding `a`'s value; undone
      last binding first, it is unset again. */
  lemma InOrderRestoreLeaks(h: Host, env: Env)
    requires h.evaluate == TwoValues
    ensures var conds := [Cast("x", Expr("a", 1)), Cast("x", Expr("b", 1))];
      var test := Conditions(h, env, map[], conds, []);
      test == Ok((true, map["x" := Int(2)], [("x", None), ("x", Some(Int(1)))]))
      && RestoreInOrder(test.value.1, test.value.2) == map["x" := Int(1)]
      && RestoreAll(test.value.1, test.value.2) == map[]
  {
    var conds := [Cast("x", Expr("a", 1)), Cast("x", Expr("b", 1))];
    var empty: Data := map[];
    var m1: Data := map["x" := Int(1)];
    var m2: Data := map["x" := Int(2)];
    var saved: Bindings := [("x", None), ("x", Some(Int(1)))];
    assert h.evaluate("a", empty) == Ok(Some(Int(1)));
    assert h.evaluate("b", m1) == Ok(Some(Int(2)));
    assert empty["x" := Int(1)] == m1 && m1["x" := Int(2)] == m2;
    assert conds[1..] == [Cast("x", Expr("b", 1))] && conds[1..][1..] == [];
    assert [] + [("x", Get(empty, "x"))] == [("x", None)];
    assert [("x", None)] + [("x", Get(m1, "x"))] == saved;
    assert Conditions(h, env, m2, [], saved) == Ok((true, m2, saved));
    assert Conditions(h, env, m1, conds[1..], [("x", None)]) == Ok((true, m2, saved));
    assert saved[1..] == [("x", Some(Int(1)))];
    assert saved[..1] == [("x", None)];
    assert m2 - {"x"} == map[];
    assert RestoreInOrder(map[], saved[1..]) == m1;
  }

  /** The names a then-block binds with `if let`, in order. */
  function CastNames(conds: seq<Condition>): seq<string>
    decreases |conds|
  {
    if conds == [] then []
    else (if conds[0].Cast? then [conds[0].variable] else []) + CastNames(conds[1..])
  }

  /** The names recorded in saved bindings, in order. */
  function BoundNames(saved: Bindings): seq<string> {
    seq(|saved|, k requires 0 <= k < |saved| => saved[k].0)
  }

  predicate Distinct(names: seq<string>) {
    forall k, m :: 0 <= k < m < |names| ==> names[k] != names[m]
  }

  /** Recording the binding of a leading `if let` moves its name from the
      names still to bind to the names bound. */
  lemma BindShiftsName(saved: Bindings, previous: Option<Value>, conds: seq<Condition>)
    requires conds != [] && conds[0].Cast?
    ensures BoundNames(saved + [(conds[0].variable, previous)]) + CastNames(conds[1..])
      == BoundNames(saved) + CastNames(conds)
  {
    var name := conds[0].variable;
    assert BoundNames(saved + [(name, previous)]) == BoundNames(saved) + [name];
    assert CastNames(conds) == [name] + CastNames(conds[1..]);
  }

  lemma DistinctPrefix(a: seq<string>, b: seq<string>)
    requires Distinct(a + b)
    ensures Distinct(a)
  {
    assert forall k :: 0 <= k < |a| ==> (a + b)[k] == a[k];
  }

  /** A then-block whose `if let` names are pairwise distinct records each
      name at most once. */
  lemma {:induction false} ConditionsBindDistinct(h: Host, env: Env, data: Data, conds: seq<Condition>, saved: Bindings)
    requires Distinct(BoundNames(saved) + CastNames(conds))
    requires Conditions(h, env, data, conds, saved).Ok?
    ensures Distinct(BoundNames(Conditions(h, env, data, conds, saved).value.2))
    decreases |conds|
  {
    var before := BoundNames(saved) + CastNames(conds);
    if conds == [] {
      assert before == BoundNames(saved);
    } else {
      var cond := conds[0].condition;
      var v := h.evaluate(cond.expression, data).value;
      if conds[0].Simple? {
        assert CastNames(conds) == CastNames(conds[1..]);
        if v.value.b {
          ConditionsBindDistinct(h, env, data, conds[1..], saved);
        } else {
          DistinctPrefix(BoundNames(saved), CastNames(conds));
        }
      } else if v.None? {
        DistinctPrefix(BoundNames(saved), CastNames(conds));
      } else {
        var name := conds[0].variable;
        var saved' := saved + [(name, Get(data, name))];
        BindShiftsName(saved, Get(data, name), conds);
        ConditionsBindDistinct(h, env, data[name := v.value], conds[1..], saved');
      }
    }
  }

  /** When no name is bound twice, undoing first to last and undoing last
      first give the same context. */
  lemma InOrderRestoresDistinct(data: Data, saved: Bindings)
    requires Distinct(BoundNames(saved))
    ensures RestoreInOrder(data, saved) == RestoreAll(data, saved)
  {
    var a := RestoreInOrder(data, saved);
    var b := RestoreAll(data, saved);
    RestoreInOrderLastValues(data, saved);
    RestoreAllFirstValues(data, saved);
    forall n
      ensures Get(a, n) == Get(b, n)
    {
      if k :| 0 <= k < |saved| && saved[k].0 == n {
        assert forall m :: 0 <= m < |saved| && m != k ==> saved[m].0 != saved[k].0 by {
          forall m | 0 <= m < |saved| && m != k
            ensures saved[m].0 != saved[k].0
          {
            assert BoundNames(saved)[m] == saved[m].0 && BoundNames(saved)[k] == saved[k].0;
          }
        }
      }
    }
    SameEntries(a, b);
  }

  /** The `if let` bindings of a then-block whose names are pairwise
      distinct are undone exactly by the order `parse(if:)` uses, so for such
      blocks the corrected model and the code agree. */
  lemma IfLetUndoAgrees(h: Host, env: Env, data: Data, conds: seq<Condition>)
    requires Distinct(CastNames(conds))
    requires Conditions(h, env, data, conds, []).Ok?
    ensures var test := Conditions(h, env, data, conds, []).value;
      RestoreInOrder(test.1, test.2) == data
  {
    assert BoundNames([]) + CastNames(conds) == CastNames(conds);
    ConditionsBindDistinct(h, env, data, conds, []);
    var test := Conditions(h, env, data, conds, []).value;
    InOrderRestoresDistinct(test.1, test.2);
  }
}
