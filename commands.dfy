/** The command tree of `ViewCommands.swift`: one constructor per command
    struct, the condition and then-block types of `If`, and the `If` builders,
    which keep only then-blocks whose body is non-empty. */
module Commands {
  import opened Wrappers

  /** The expression structs `RawValue` and `EscapedValue` when they appear as
      a field of another command: the expression text and its line. */
  datatype Expr = Expr(expression: string, line: int)

  /** `If.ThenBlock.ConditionType`: a boolean condition, or `let variable = condition`. */
  datatype Condition =
    | Simple(condition: Expr)
    | Cast(variable: string, condition: Expr)

  /** `If.ThenBlock`: the conditions of one `if`/`else if` branch, its body and line. */
  datatype ThenBlock = ThenBlock(conditions: seq<Condition>, block: seq<Command>, line: int)

  /** The command structs. `Title`'s field is an `EscapedValue`, those of
      `Head` and `Body` a `RawValue`; `Layout` and `Subview` name their view
      by a `RawValue`. */
  datatype Command =
    | Html(value: string, line: int)
    | InsertView(line: int)
    | Date(date: Expr, format: Option<Expr>, line: int)
    | RawValue(expression: string, line: int)
    | EscapedValue(expression: string, line: int)
    | If(thens: seq<ThenBlock>, els: seq<Command>, line: int)
    | Layout(name: Expr, line: int)
    | Subview(name: Expr, line: int)
    | Title(expr: Expr, line: int)
    | Head(expr: Expr, line: int)
    | Body(expr: Expr, line: int)
    | For(key: Option<string>, value: string, collection: string, commands: seq<Command>, line: int)

  /** `ViewCommands`: a compiled template, its name and its top-level commands. */
  datatype ViewCommands = ViewCommands(fileName: string, body: seq<Command>)

  /** `ViewCommands.CommandType`: the kind tag of each command struct. */
  datatype CommandType =
    | HtmlKind | ViewKind | DateKind | RawValueKind | EscapedValueKind | IfKind
    | LayoutKind | SubviewKind | TitleKind | HeadKind | BodyKind | ForKind

  /** The raw values of `CommandType`. */
  function CommandTypeRaw(t: CommandType): string {
    match t
    case HtmlKind => "html"
    case ViewKind => "view"
    case DateKind => "date"
    case RawValueKind => "rawValue"
    case EscapedValueKind => "escapedValue"
    case IfKind => "if"
    case LayoutKind => "layout"
    case SubviewKind => "subview"
    case TitleKind => "title"
    case HeadKind => "head"
    case BodyKind => "body"
    case ForKind => "for"
  }

  /** `CommandType(rawValue:)`. */
  function CommandTypeFromRaw(s: string): (r: Option<CommandType>)
    ensures r.Some? ==> CommandTypeRaw(r.value) == s
  {
    if s == "html" then Some(HtmlKind)
    else if s == "view" then Some(ViewKind)
    else if s == "date" then Some(DateKind)
    else if s == "rawValue" then Some(RawValueKind)
    else if s == "escapedValue" then Some(EscapedValueKind)
    else if s == "if" then Some(IfKind)
    else if s == "layout" then Some(LayoutKind)
    else if s == "subview" then Some(SubviewKind)
    else if s == "title" then Some(TitleKind)
    else if s == "head" then Some(HeadKind)
    else if s == "body" then Some(BodyKind)
    else if s == "for" then Some(ForKind)
    else None
  }

  /** Lookup by raw value inverts `CommandTypeRaw`. */
  lemma CommandTypeFromRawInverse(t: CommandType)
    ensures CommandTypeFromRaw(CommandTypeRaw(t)) == Some(t)
  {
  }

  /** The `id` each command struct carries. */
  function Kind(c: Command): CommandType {
    match c
    case Html(_, _) => HtmlKind
    case InsertView(_) => ViewKind
    case Date(_, _, _) => DateKind
    case RawValue(_, _) => RawValueKind
    case EscapedValue(_, _) => EscapedValueKind
    case If(_, _, _) => IfKind
    case Layout(_, _) => LayoutKind
    case Subview(_, _) => SubviewKind
    case Title(_, _) => TitleKind
    case Head(_, _) => HeadKind
    case Body(_, _) => BodyKind
    case For(_, _, _, _, _) => ForKind
  }

  /** Every then-block stored in an `If` has a non-empty body. */
  predicate ThensNonEmpty(thens: seq<ThenBlock>) {
    forall k :: 0 <= k < |thens| ==> thens[k].block != []
  }

  /** `If.add(thenBlock:)`: appends the then-block unless its body is empty. */
  function AddThen(c: Command, t: ThenBlock): (r: Command)
    requires c.If?
    ensures r.If? && r.els == c.els && r.line == c.line
    ensures t.block == [] ==> r.thens == c.thens
    ensures t.block != [] ==> r.thens == c.thens + [t]
  {
    if t.block == [] then c else c.(thens := c.thens + [t])
  }

  /** `If.add(conditions:then:line:)`. */
  function AddConditions(c: Command, conditions: seq<Condition>, body: seq<Command>, line: int): (r: Command)
    requires c.If?
    ensures r.If? && r.els == c.els && r.line == c.line
    ensures body == [] ==> r.thens == c.thens
    ensures body != [] ==> r.thens == c.thens + [ThenBlock(conditions, body, line)]
  {
    AddThen(c, ThenBlock(conditions, body, line))
  }

  /** `If.setElse(body:)`. */
  function SetElse(c: Command, body: seq<Command>): (r: Command)
    requires c.If?
    ensures r.If? && r.els == body && r.thens == c.thens && r.line == c.line
  {
    c.(els := body)
  }

  /** `If.init(then:else:line:)`: no then-blocks, then `add(thenBlock:)`. */
  function IfWithThen(tb: ThenBlock, els: seq<Command>, line: int): (r: Command)
    ensures r.If? && r.els == els && r.line == line
    ensures r.thens == if tb.block == [] then [] else [tb]
  {
    AddThen(If([], els, line), tb)
  }

  /** `If.init(conditions:then:else:line:)`. */
  function IfWithConditions(conditions: seq<Condition>, body: seq<Command>, els: seq<Command>, line: int): (r: Command)
    ensures r.If? && r.els == els && r.line == line
    ensures r.thens == if body == [] then [] else [ThenBlock(conditions, body, line)]
  {
    IfWithThen(ThenBlock(conditions, body, line), els, line)
  }

  /** `If.init(variable:condition:then:else:line:)` with a `RawValue`
      condition: a cast condition when a variable is given, a simple one
      otherwise. */
  function IfWithVariable(variable: Option<string>, condition: Expr, body: seq<Command>, els: seq<Command>, line: int)
    : (r: Command)
    ensures r.If? && r.els == els && r.line == line
  {
    var cond := match variable
      case Some(v) => Cast(v, condition)
      case None => Simple(condition);
    AddThen(If([], els, line), ThenBlock([cond], body, line))
  }

  /** `If.init(variable:condition:...)` with the condition as text: wrapped in
      a `RawValue` on the command's line. */
  function IfWithText(variable: Option<string>, condition: string, body: seq<Command>, els: seq<Command>, line: int)
    : (r: Command)
    ensures r.If? && r.els == els && r.line == line
  {
    IfWithVariable(variable, Expr(condition, line), body, els, line)
  }

  /** The variable-taking initialiser builds exactly one cast condition when a
      variable is given and one simple condition otherwise, provided the body
      is non-empty; with an empty body it stores no then-block at all. */
  lemma IfWithVariableCondition(variable: Option<string>, condition: Expr, body: seq<Command>, els: seq<Command>, line: int)
    ensures var r := IfWithVariable(variable, condition, body, els, line);
      (body == [] <==> r.thens == [])
      && (body != [] ==>
            |r.thens| == 1 && r.thens[0].block == body && r.thens[0].line == line
            && |r.thens[0].conditions| == 1
            && (r.thens[0].conditions[0].Cast? <==> variable.Some?)
            && r.thens[0].conditions[0].condition == condition
            && (variable.Some? ==> r.thens[0].conditions[0].variable == variable.value))
  {
  }

  /** The text initialiser puts the condition text on the command's line. */
  lemma IfWithTextCondition(variable: Option<string>, condition: string, body: seq<Command>, els: seq<Command>, line: int)
    requires body != []
    ensures var r := IfWithText(variable, condition, body, els, line);
      |r.thens| == 1 && r.thens[0].conditions[0].condition == Expr(condition, line)
      && (r.thens[0].conditions[0].Cast? <==> variable.Some?)
  {
    IfWithVariableCondition(variable, Expr(condition, line), body, els, line);
  }

  /** Every way of building or changing an `If` keeps the then-block bodies
      non-empty. */
  lemma BuildersKeepThensNonEmpty(c: Command, t: ThenBlock, body: seq<Command>,
                                  variable: Option<string>, condition: Expr, line: int)
    requires c.If? && ThensNonEmpty(c.thens)
    ensures ThensNonEmpty(AddThen(c, t).thens)
    ensures ThensNonEmpty(SetElse(c, body).thens)
    ensures ThensNonEmpty(IfWithThen(t, body, line).thens)
    ensures ThensNonEmpty(IfWithVariable(variable, condition, t.block, body, line).thens)
  {
  }

  /** Adding then-blocks one after another keeps exactly those with a
      non-empty body, in order. */
  function NonEmptyBlocks(ts: seq<ThenBlock>): (r: seq<ThenBlock>)
    ensures ThensNonEmpty(r) && |r| <= |ts|
  {
    if ts == [] then []
    else NonEmptyBlocks(ts[..|ts| - 1]) + (if ts[|ts| - 1].block == [] then [] else [ts[|ts| - 1]])
  }

  function AddAll(c: Command, ts: seq<ThenBlock>): (r: Command)
    requires c.If?
    ensures r.If?
  {
    if ts == [] then c else AddThen(AddAll(c, ts[..|ts| - 1]), ts[|ts| - 1])
  }

  lemma {:induction false} AddAllKeepsNonEmpty(c: Command, ts: seq<ThenBlock>)
    requires c.If?
    ensures AddAll(c, ts).thens == c.thens + NonEmptyBlocks(ts)
    ensures AddAll(c, ts).els == c.els && AddAll(c, ts).line == c.line
  {
    if ts != [] {
      AddAllKeepsNonEmpty(c, ts[..|ts| - 1]);
      var last := ts[|ts| - 1];
      if last.block == [] {
        assert NonEmptyBlocks(ts) == NonEmptyBlocks(ts[..|ts| - 1]) + [];
      }
    }
  }
}
