/** The `Codable` conformance of `ViewCommands.swift`, over a small JSON-like
    value: each command is an object tagged by `id`, lists of commands are
    arrays decoded element by element on their tag, empty lists and absent
    optionals are omitted on encoding and restored on decoding. */
module Codec {
  import opened Wrappers
  import opened Commands

  /** The encoding target: integers, strings, arrays and objects with string keys. */
  datatype Json =
    | JInt(i: int)
    | JStr(s: string)
    | JArr(items: seq<Json>)
    | JObj(fields: map<string, Json>)

  type Fields = map<string, Json>

  /** The decoding failures the `Decodable` initialisers raise. */
  datatype DecodeError =
    | KeyNotFound(key: string)
    | TypeMismatch(key: string, expected: string)
    | DataCorrupted(key: string, message: string)

  /** `decoder.container(keyedBy:)`: the value must be an object. */
  function Keyed(j: Json, key: string): (r: Result<Fields, DecodeError>)
    ensures r.Ok? <==> j.JObj?
    ensures r.Ok? ==> r.value == j.fields
  {
    if j.JObj? then Ok(j.fields) else Err(TypeMismatch(key, "object"))
  }

  /** `decode(String.self, forKey:)`. */
  function GetString(f: Fields, key: string): (r: Result<string, DecodeError>)
    ensures r.Ok? <==> key in f && f[key].JStr?
    ensures r.Ok? ==> r.value == f[key].s
    ensures key !in f ==> r == Err(KeyNotFound(key))
  {
    if key !in f then Err(KeyNotFound(key))
    else if f[key].JStr? then Ok(f[key].s)
    else Err(TypeMismatch(key, "String"))
  }

  /** `decode(Int.self, forKey:)`. */
  function GetInt(f: Fields, key: string): (r: Result<int, DecodeError>)
    ensures r.Ok? <==> key in f && f[key].JInt?
    ensures r.Ok? ==> r.value == f[key].i
    ensures key !in f ==> r == Err(KeyNotFound(key))
  {
    if key !in f then Err(KeyNotFound(key))
    else if f[key].JInt? then Ok(f[key].i)
    else Err(TypeMismatch(key, "Int"))
  }

  /** `decodeIfPresent(String.self, forKey:)`: absent is nil, not an error. */
  function GetOptString(f: Fields, key: string): (r: Result<Option<string>, DecodeError>)
    ensures key !in f ==> r == Ok(None)
    ensures key in f ==> (r.Ok? <==> f[key].JStr?) && (r.Ok? ==> r.value == Some(f[key].s))
  {
    if key !in f then Ok(None)
    else if f[key].JStr? then Ok(Some(f[key].s))
    else Err(TypeMismatch(key, "String"))
  }

  /** Decoding the `id` key as a `CommandType`: an unknown raw value is
      corrupted data. */
  function GetCommandType(f: Fields): (r: Result<CommandType, DecodeError>)
    ensures r.Ok? ==> "id" in f && f["id"] == JStr(CommandTypeRaw(r.value))
    ensures "id" in f && f["id"].JStr? && CommandTypeFromRaw(f["id"].s).None? ==>
      r == Err(DataCorrupted("id", "Cannot initialize CommandType from invalid String value " + f["id"].s))
  {
    var s :- GetString(f, "id");
    match CommandTypeFromRaw(s)
    case Some(t) => Ok(t)
    case None => Err(DataCorrupted("id", "Cannot initialize CommandType from invalid String value " + s))
  }

  // ---- Encoding ----

  /** A `RawValue` or `EscapedValue` struct, encoded with the given `id`. */
  function EncodeExpr(e: Expr, tag: string): (r: Json)
    ensures forall key :: DecodeExpr(r, key) == Ok(e)
  {
    JObj(map["id" := JStr(tag), "expression" := JStr(e.expression), "line" := JInt(e.line)])
  }

  /** `ConditionType.encode(to:)`: `variable` only for a cast. */
  function EncodeCondition(c: Condition): (r: Json)
    ensures r.JObj? && "condition" in r.fields
    ensures forall key :: DecodeExpr(r.fields["condition"], key) == Ok(c.condition)
    ensures "variable" in r.fields <==> c.Cast?
    ensures c.Cast? ==> r.fields["variable"] == JStr(c.variable)
  {
    match c
    case Simple(cond) => JObj(map["condition" := EncodeExpr(cond, "rawValue")])
    case Cast(v, cond) => JObj(map["condition" := EncodeExpr(cond, "rawValue"), "variable" := JStr(v)])
  }

  function EncodeConditions(cs: seq<Condition>): (r: seq<Json>)
    ensures |r| == |cs|
    ensures forall k :: 0 <= k < |cs| ==> r[k] == EncodeCondition(cs[k])
  {
    if cs == [] then [] else [EncodeCondition(cs[0])] + EncodeConditions(cs[1..])
  }

  /** The `encode(to:)` of each command struct: its `id` and its own fields;
      `encodeIfPresent` and the `isEmpty` guards leave keys out. */
  function EncodeCommand(c: Command): (r: Json)
    ensures r.JObj? && "id" in r.fields && r.fields["id"] == JStr(CommandTypeRaw(Kind(c)))
    ensures "line" in r.fields && r.fields["line"] == JInt(c.line)
  {
    var id := JStr(CommandTypeRaw(Kind(c)));
    match c
    case Html(value, line) => JObj(map["id" := id, "value" := JStr(value), "line" := JInt(line)])
    case InsertView(line) => JObj(map["id" := id, "line" := JInt(line)])
    case Date(date, format, line) =>
      var f := map["id" := id, "date" := EncodeExpr(date, "rawValue"), "line" := JInt(line)];
      JObj(if format.Some? then f["format" := EncodeExpr(format.value, "rawValue")] else f)
    case RawValue(expression, line) => JObj(map["id" := id, "expression" := JStr(expression), "line" := JInt(line)])
    case EscapedValue(expression, line) => JObj(map["id" := id, "expression" := JStr(expression), "line" := JInt(line)])
    case If(thens, els, line) =>
      var f := map["id" := id, "line" := JInt(line)];
      var f := if thens != [] then f["thens" := JArr(EncodeThens(thens))] else f;
      JObj(if els != [] then f["else" := JArr(EncodeList(els))] else f)
    case Layout(name, line) => JObj(map["id" := id, "name" := EncodeExpr(name, "rawValue"), "line" := JInt(line)])
    case Subview(name, line) => JObj(map["id" := id, "name" := EncodeExpr(name, "rawValue"), "line" := JInt(line)])
    case Title(expr, line) => JObj(map["id" := id, "expression" := EncodeExpr(expr, "escapedValue"), "line" := JInt(line)])
    case Head(expr, line) => JObj(map["id" := id, "expression" := EncodeExpr(expr, "rawValue"), "line" := JInt(line)])
    case Body(expr, line) => JObj(map["id" := id, "expression" := EncodeExpr(expr, "rawValue"), "line" := JInt(line)])
    case For(key, value, collection, commands, line) =>
      var f := map["id" := id, "value" := JStr(value), "collection" := JStr(collection), "line" := JInt(line)];
      var f := if key.Some? then f["key" := JStr(key.value)] else f;
      JObj(if commands != [] then f["commands" := JArr(EncodeList(commands))] else f)
  }

  /** `encode(commands:unkeyedContainer:)`: one element per command, in order. */
  function EncodeList(cs: seq<Command>): (r: seq<Json>)
    ensures |r| == |cs|
    ensures forall k :: 0 <= k < |cs| ==> r[k] == EncodeCommand(cs[k])
  {
    if cs == [] then [] else [EncodeCommand(cs[0])] + EncodeList(cs[1..])
  }

  /** `ThenBlock.encode(to:)`. */
  function EncodeThen(t: ThenBlock): (r: Json)
    ensures r.JObj? && r.fields.Keys == {"conditions", "block", "line"}
    ensures r.fields["conditions"] == JArr(EncodeConditions(t.conditions))
    ensures r.fields["block"] == JArr(EncodeList(t.block))
    ensures r.fields["line"] == JInt(t.line)
  {
    JObj(map["conditions" := JArr(EncodeConditions(t.conditions)),
             "block" := JArr(EncodeList(t.block)),
             "line" := JInt(t.line)])
  }

  function EncodeThens(ts: seq<ThenBlock>): (r: seq<Json>)
    ensures |r| == |ts|
    ensures forall k :: 0 <= k < |ts| ==> r[k] == EncodeThen(ts[k])
  {
    if ts == [] then [] else [EncodeThen(ts[0])] + EncodeThens(ts[1..])
  }

  /** `ViewCommands.encode(to:)`: what it writes decodes back to the same
      file name and commands. */
  function EncodeView(v: ViewCommands): (r: Json)
    ensures DecodeView(r) == Ok(v)
  {
    RoundTripList(v.body);
    JObj(map["fileName" := JStr(v.fileName), "body" := JArr(EncodeList(v.body))])
  }

  // ---- Decoding ----

  /** The synthesised decoder of `RawValue`/`EscapedValue`; it ignores `id`. */
  function DecodeExpr(j: Json, key: string): (r: Result<Expr, DecodeError>)
    ensures !j.JObj? ==> r == Err(TypeMismatch(key, "object"))
    ensures r.Ok? <==>
              j.JObj? && "expression" in j.fields && j.fields["expression"].JStr?
              && "line" in j.fields && j.fields["line"].JInt?
    ensures r.Ok? ==> r.value == Expr(j.fields["expression"].s, j.fields["line"].i)
  {
    var f :- Keyed(j, key);
    var e :- GetString(f, "expression");
    var line :- GetInt(f, "line");
    Ok(Expr(e, line))
  }

  function GetExpr(f: Fields, key: string): Result<Expr, DecodeError> {
    if key !in f then Err(KeyNotFound(key)) else DecodeExpr(f[key], key)
  }

  /** `decodeIfPresent(RawValue.self, forKey:)`. */
  function GetOptExpr(f: Fields, key: string): Result<Option<Expr>, DecodeError> {
    if key !in f then Ok(None)
    else
      var e :- DecodeExpr(f[key], key);
      Ok(Some(e))
  }

  /** `ConditionType.init(from:)`: a cast exactly when `variable` is present. */
  function DecodeCondition(j: Json): (r: Result<Condition, DecodeError>)
    ensures !j.JObj? ==> r == Err(TypeMismatch("conditions", "object"))
    ensures j.JObj? && "condition" !in j.fields ==> r == Err(KeyNotFound("condition"))
    ensures r.Ok? ==> j.JObj? && "condition" in j.fields
                      && DecodeExpr(j.fields["condition"], "condition") == Ok(r.value.condition)
    ensures r.Ok? ==> (r.value.Cast? <==> "variable" in j.fields)
    ensures r.Ok? && r.value.Cast? ==> j.fields["variable"] == JStr(r.value.variable)
  {
    var f :- Keyed(j, "conditions");
    var cond :- GetExpr(f, "condition");
    var v :- GetOptString(f, "variable");
    if v.Some? then Ok(Cast(v.value, cond)) else Ok(Simple(cond))
  }

  function DecodeConditions(items: seq<Json>): (r: Result<seq<Condition>, DecodeError>)
    ensures r.Ok? ==> |r.value| == |items|
    ensures r.Ok? ==> forall k :: 0 <= k < |items| ==> DecodeCondition(items[k]) == Ok(r.value[k])
  {
    if items == [] then Ok([])
    else
      var c :- DecodeCondition(items[0]);
      var rest :- DecodeConditions(items[1..]);
      Ok([c] + rest)
  }

  /** `decode(unkeyedContainer:)`: each element's `id` selects its decoder. */
  function DecodeList(items: seq<Json>): (r: Result<seq<Command>, DecodeError>)
    ensures r.Ok? ==> |r.value| == |items|
    ensures r.Ok? ==> forall k :: 0 <= k < |items| ==> DecodeCommand(items[k]) == Ok(r.value[k])
    decreases items, 0
  {
    if items == [] then Ok([])
    else
      var c :- DecodeCommand(items[0]);
      var rest :- DecodeList(items[1..]);
      Ok([c] + rest)
  }

  /** The first error of a list decode, or the decoded prefix followed by
      the rest. */
  function Prepend(done: seq<Command>, rest: Result<seq<Command>, DecodeError>): Result<seq<Command>, DecodeError> {
    if rest.Ok? then Ok(done + rest.value) else rest
  }

  /** `decode(unkeyedContainer:)` as the loop it is: peek at each element's
      `id`, decode the element, append it; the first failure ends the loop. */
  method DecodeUnkeyed(items: seq<Json>) returns (r: Result<seq<Command>, DecodeError>)
    ensures r == DecodeList(items)
  {
    var commands: seq<Command> := [];
    var i := 0;
    assert items[0..] == items;
    assert DecodeList(items).Ok? ==> [] + DecodeList(items).value == DecodeList(items).value;
    while i < |items|
      invariant 0 <= i <= |items|
      invariant DecodeList(items) == Prepend(commands, DecodeList(items[i..]))
    {
      ListStep(items, i);
      var c := DecodeCommand(items[i]);
      if c.Err? {
        return Err(c.error);
      }
      PrependAssoc(commands, [c.value], DecodeList(items[i + 1..]));
      commands := commands + [c.value];
      i := i + 1;
    }
    assert items[i..] == [] && commands + [] == commands;
    return Ok(commands);
  }

  lemma ListStep(items: seq<Json>, i: int)
    requires 0 <= i < |items|
    ensures var c := DecodeCommand(items[i]);
      DecodeList(items[i..]) == if c.Err? then Err(c.error) else Prepend([c.value], DecodeList(items[i + 1..]))
  {
    assert items[i..][0] == items[i] && items[i..][1..] == items[i + 1..];
  }

  lemma PrependAssoc(a: seq<Command>, b: seq<Command>, r: Result<seq<Command>, DecodeError>)
    ensures Prepend(a, Prepend(b, r)) == Prepend(a + b, r)
  {
    if r.Ok? {
      assert a + (b + r.value) == a + b + r.value;
    }
  }

  /** `try? container.nestedUnkeyedContainer(forKey:)` followed by a list
      decode: an absent key or a value that is not an array gives `[]`. */
  function DecodeOptList(j: Json, key: string): (r: Result<seq<Command>, DecodeError>)
    requires j.JObj?
    ensures !(key in j.fields && j.fields[key].JArr?) ==> r == Ok([])
    ensures r.Ok? && key in j.fields && j.fields[key].JArr? ==> |r.value| == |j.fields[key].items|
    decreases j, 0
  {
    if key in j.fields && j.fields[key].JArr? then DecodeList(j.fields[key].items) else Ok([])
  }

  /** One element of a command list: read its tag, then decode it. */
  function DecodeCommand(j: Json): (r: Result<Command, DecodeError>)
    ensures r.Ok? ==> j.JObj? && GetCommandType(j.fields) == Ok(Kind(r.value))
    decreases j, 2
  {
    var f :- Keyed(j, "");
    var t :- GetCommandType(f);
    match t
    case ForKind => DecodeFor(j)
    case IfKind => DecodeIf(j)
    case _ => DecodeFlat(f, t)
  }

  /** The synthesised decoders of the commands that hold no command list;
      they do not read `id` again. */
  function DecodeFlat(f: Fields, t: CommandType): (r: Result<Command, DecodeError>)
    requires t != ForKind && t != IfKind
    ensures r.Ok? ==> Kind(r.value) == t
    ensures r.Ok? ==> "line" in f && f["line"] == JInt(r.value.line)
  {
    match t
    case HtmlKind =>
      var value :- GetString(f, "value");
      var line :- GetInt(f, "line");
      Ok(Html(value, line))
    case ViewKind =>
      var line :- GetInt(f, "line");
      Ok(InsertView(line))
    case DateKind =>
      var date :- GetExpr(f, "date");
      var format :- GetOptExpr(f, "format");
      var line :- GetInt(f, "line");
      Ok(Date(date, format, line))
    case RawValueKind =>
      var e :- GetString(f, "expression");
      var line :- GetInt(f, "line");
      Ok(RawValue(e, line))
    case EscapedValueKind =>
      var e :- GetString(f, "expression");
      var line :- GetInt(f, "line");
      Ok(EscapedValue(e, line))
    case LayoutKind =>
      var name :- GetExpr(f, "name");
      var line :- GetInt(f, "line");
      Ok(Layout(name, line))
    case SubviewKind =>
      var name :- GetExpr(f, "name");
      var line :- GetInt(f, "line");
      Ok(Subview(name, line))
    case TitleKind =>
      var e :- GetExpr(f, "expression");
      var line :- GetInt(f, "line");
      Ok(Title(e, line))
    case HeadKind =>
      var e :- GetExpr(f, "expression");
      var line :- GetInt(f, "line");
      Ok(Head(e, line))
    case BodyKind =>
      var e :- GetExpr(f, "expression");
      var line :- GetInt(f, "line");
      Ok(Body(e, line))
  }

  /** `For.init(from:)`: the `id` must be `for`, else "Wrong ID". */
  function DecodeFor(j: Json): (r: Result<Command, DecodeError>)
    ensures r.Ok? ==> r.value.For? && j.JObj? && GetCommandType(j.fields) == Ok(ForKind)
    ensures j.JObj? && GetCommandType(j.fields).Ok? && GetCommandType(j.fields).value != ForKind ==>
      r == Err(DataCorrupted("id", "Wrong ID"))
    decreases j, 1
  {
    var f :- Keyed(j, "");
    var oid :- GetCommandType(f);
    if oid != ForKind then Err(DataCorrupted("id", "Wrong ID"))
    else
      var key :- GetOptString(f, "key");
      var value :- GetString(f, "value");
      var collection :- GetString(f, "collection");
      var commands :- DecodeOptList(j, "commands");
      var line :- GetInt(f, "line");
      Ok(For(key, value, collection, commands, line))
  }

  /** `If.init(from:)`: the `id` must be `if`, else "Wrong ID"; an absent
      `thens` or `else` decodes as empty. */
  function DecodeIf(j: Json): (r: Result<Command, DecodeError>)
    ensures r.Ok? ==> r.value.If? && j.JObj? && GetCommandType(j.fields) == Ok(IfKind)
    ensures j.JObj? && GetCommandType(j.fields).Ok? && GetCommandType(j.fields).value != IfKind ==>
      r == Err(DataCorrupted("id", "Wrong ID"))
    decreases j, 1
  {
    var f :- Keyed(j, "");
    var oid :- GetCommandType(f);
    if oid != IfKind then Err(DataCorrupted("id", "Wrong ID"))
    else
      var line :- GetInt(f, "line");
      var thens :- if "thens" !in f then Ok([])
        else if f["thens"].JArr? then DecodeThens(f["thens"].items)
        else Err(TypeMismatch("thens", "array"));
      var els :- DecodeOptList(j, "else");
      Ok(If(thens, els, line))
  }

  /** `ThenBlock.init(from:)`: all three keys are required. */
  function DecodeThen(j: Json): (r: Result<ThenBlock, DecodeError>)
    ensures !j.JObj? ==> r == Err(TypeMismatch("thens", "object"))
    ensures j.JObj? && "conditions" !in j.fields ==> r == Err(KeyNotFound("conditions"))
    ensures j.JObj? && "conditions" in j.fields && j.fields["conditions"].JArr?
            && DecodeConditions(j.fields["conditions"].items).Ok? && "block" !in j.fields ==>
              r == Err(KeyNotFound("block"))
    ensures r.Ok? ==> j.JObj? && "conditions" in j.fields && "block" in j.fields && "line" in j.fields
    ensures r.Ok? ==> j.fields["conditions"].JArr? && |r.value.conditions| == |j.fields["conditions"].items|
    ensures r.Ok? ==> j.fields["block"].JArr? && |r.value.block| == |j.fields["block"].items|
    ensures r.Ok? ==> j.fields["line"] == JInt(r.value.line)
    decreases j, 1
  {
    var f :- Keyed(j, "thens");
    var conditions :- if "conditions" !in f then Err(KeyNotFound("conditions"))
      else if f["conditions"].JArr? then DecodeConditions(f["conditions"].items)
      else Err(TypeMismatch("conditions", "array"));
    var block :- if "block" !in f then Err(KeyNotFound("block"))
      else if f["block"].JArr? then DecodeList(f["block"].items)
      else Err(TypeMismatch("block", "array"));
    var line :- GetInt(f, "line");
    Ok(ThenBlock(conditions, block, line))
  }

  function DecodeThens(items: seq<Json>): (r: Result<seq<ThenBlock>, DecodeError>)
    ensures r.Ok? ==> |r.value| == |items|
    ensures r.Ok? ==> forall k :: 0 <= k < |items| ==> DecodeThen(items[k]) == Ok(r.value[k])
    decreases items, 0
  {
    if items == [] then Ok([])
    else
      var t :- DecodeThen(items[0]);
      var rest :- DecodeThens(items[1..]);
      Ok([t] + rest)
  }

  /** `ViewCommands.init(from:)`: `fileName` and the `body` array are required. */
  function DecodeView(j: Json): (r: Result<ViewCommands, DecodeError>)
    ensures j.JObj? && "fileName" !in j.fields ==> r == Err(KeyNotFound("fileName"))
    ensures r.Ok? ==> j.JObj? && "fileName" in j.fields && j.fields["fileName"] == JStr(r.value.fileName)
    ensures r.Ok? ==> "body" in j.fields && j.fields["body"].JArr? && |r.value.body| == |j.fields["body"].items|
  {
    var f :- Keyed(j, "");
    var name :- GetString(f, "fileName");
    var body :- if "body" !in f then Err(KeyNotFound("body"))
      else if f["body"].JArr? then DecodeList(f["body"].items)
      else Err(TypeMismatch("body", "array"));
    Ok(ViewCommands(name, body))
  }

  /** A list decode fails exactly when some element fails, and then with
      the error of the first failing element. */
  lemma {:induction false} ListFailsAtFirst(items: seq<Json>, k: int)
    requires 0 <= k < |items| && DecodeCommand(items[k]).Err?
    requires forall m :: 0 <= m < k ==> DecodeCommand(items[m]).Ok?
    ensures DecodeList(items) == Err(DecodeCommand(items[k]).error)
    decreases k
  {
    if k > 0 {
      ListFailsAtFirst(items[1..], k - 1);
    }
  }

  // ---- Round trips ----

  lemma RoundTripCondition(c: Condition)
    ensures DecodeCondition(EncodeCondition(c)) == Ok(c)
  {
  }

  lemma {:induction false} RoundTripConditions(cs: seq<Condition>)
    ensures DecodeConditions(EncodeConditions(cs)) == Ok(cs)
  {
    if cs != [] {
      var items := EncodeConditions(cs);
      assert items[0] == EncodeCondition(cs[0]) && items[1..] == EncodeConditions(cs[1..]);
      RoundTripCondition(cs[0]);
      RoundTripConditions(cs[1..]);
      assert [cs[0]] + cs[1..] == cs;
    }
  }

  /** An encoded command's `id` decodes to its kind. */
  lemma EncodedKind(c: Command)
    ensures EncodeCommand(c).JObj? && GetCommandType(EncodeCommand(c).fields) == Ok(Kind(c))
  {
    CommandTypeFromRawInverse(Kind(c));
  }

  /** The list decoder picks the decoder of the kind named by `id`. */
  lemma DispatchOnKind(c: Command)
    ensures var j := EncodeCommand(c);
      j.JObj? && DecodeCommand(j) == (if c.For? then DecodeFor(j) else if c.If? then DecodeIf(j)
                                      else DecodeFlat(j.fields, Kind(c)))
  {
    EncodedKind(c);
    var j := EncodeCommand(c);
    Dispatch(j, Kind(c));
  }

  lemma Dispatch(j: Json, t: CommandType)
    requires j.JObj? && GetCommandType(j.fields) == Ok(t)
    ensures DecodeCommand(j) == (if t == ForKind then DecodeFor(j) else if t == IfKind then DecodeIf(j)
                                 else DecodeFlat(j.fields, t))
  {
  }

  /** The commands without nested command lists round-trip through their
      synthesised coders. */
  lemma RoundTripFlat(c: Command)
    requires !c.For? && !c.If?
    ensures EncodeCommand(c).JObj? && DecodeFlat(EncodeCommand(c).fields, Kind(c)) == Ok(c)
  {
    if c.Date? {
      RoundTripDate(c);
    } else if c.Layout? || c.Subview? {
      RoundTripNamed(c);
    } else if c.Title? || c.Head? || c.Body? {
      RoundTripHeadCommand(c);
    } else if c.Html? || c.InsertView? {
      RoundTripMarkup(c);
    } else {
      RoundTripValue(c);
    }
  }

  lemma RoundTripDate(c: Command)
    requires c.Date?
    ensures EncodeCommand(c).JObj? && DecodeFlat(EncodeCommand(c).fields, Kind(c)) == Ok(c)
  {
    var f := EncodeCommand(c).fields;
    assert f["date"] == EncodeExpr(c.date, "rawValue") && f["line"] == JInt(c.line);
    if c.format.Some? {
      assert f["format"] == EncodeExpr(c.format.value, "rawValue");
    } else {
      assert "format" !in f;
    }
  }

  lemma RoundTripNamed(c: Command)
    requires c.Layout? || c.Subview?
    ensures EncodeCommand(c).JObj? && DecodeFlat(EncodeCommand(c).fields, Kind(c)) == Ok(c)
  {
    var f := EncodeCommand(c).fields;
    assert f["name"] == EncodeExpr(c.name, "rawValue") && f["line"] == JInt(c.line);
  }

  lemma RoundTripHeadCommand(c: Command)
    requires c.Title? || c.Head? || c.Body?
    ensures EncodeCommand(c).JObj? && DecodeFlat(EncodeCommand(c).fields, Kind(c)) == Ok(c)
  {
    var tag := if c.Title? then "escapedValue" else "rawValue";
    var f := EncodeCommand(c).fields;
    assert f["expression"] == EncodeExpr(c.expr, tag) && f["line"] == JInt(c.line);
  }

  lemma RoundTripMarkup(c: Command)
    requires c.Html? || c.InsertView?
    ensures EncodeCommand(c).JObj? && DecodeFlat(EncodeCommand(c).fields, Kind(c)) == Ok(c)
  {
    var f := EncodeCommand(c).fields;
    assert f["line"] == JInt(c.line);
    if c.Html? {
      assert f["value"] == JStr(c.value);
    }
  }

  lemma RoundTripValue(c: Command)
    requires c.RawValue? || c.EscapedValue?
    ensures EncodeCommand(c).JObj? && DecodeFlat(EncodeCommand(c).fields, Kind(c)) == Ok(c)
  {
    var f := EncodeCommand(c).fields;
    assert f["expression"] == JStr(c.expression) && f["line"] == JInt(c.line);
  }

  /** Decoding an encoded command gives back the same command: kind, payload,
      nested commands and line. */
  lemma {:induction false} RoundTripCommand(c: Command)
    ensures DecodeCommand(EncodeCommand(c)) == Ok(c)
    decreases c, 1
  {
    DispatchOnKind(c);
    match c
    case If(thens, els, line) =>
      RoundTripIf(thens, els, line);
    case For(key, value, collection, commands, line) =>
      RoundTripFor(key, value, collection, commands, line);
    case _ =>
      RoundTripFlat(c);
  }

  /** `If` omits empty `thens` and `else` and decodes them back as empty. */
  lemma {:induction false} RoundTripIf(thens: seq<ThenBlock>, els: seq<Command>, line: int)
    ensures DecodeIf(EncodeCommand(If(thens, els, line))) == Ok(If(thens, els, line))
    decreases If(thens, els, line), 0
  {
    var c := If(thens, els, line);
    var j := EncodeCommand(c);
    EncodedKind(c);
    var f := j.fields;
    assert GetInt(f, "line") == Ok(line) by {
      assert f["line"] == JInt(line);
    }
    if thens != [] {
      assert f["thens"] == JArr(EncodeThens(thens));
      RoundTripThens(thens);
    } else {
      assert "thens" !in f;
    }
    assert DecodeOptList(j, "else") == Ok(els) by {
      if els != [] {
        assert f["else"] == JArr(EncodeList(els));
        RoundTripList(els);
      } else {
        assert "else" !in f;
      }
    }
  }

  /** `For` omits an absent `key` and empty `commands` and decodes them back
      as absent and empty. */
  lemma {:induction false} RoundTripFor(key: Option<string>, value: string, collection: string,
                                        commands: seq<Command>, line: int)
    ensures var c := For(key, value, collection, commands, line);
      DecodeFor(EncodeCommand(c)) == Ok(c)
    decreases For(key, value, collection, commands, line), 0
  {
    var c := For(key, value, collection, commands, line);
    var j := EncodeCommand(c);
    EncodedKind(c);
    var f := j.fields;
    assert GetOptString(f, "key") == Ok(key) by {
      if key.Some? {
        assert f["key"] == JStr(key.value);
      } else {
        assert "key" !in f;
      }
    }
    assert GetString(f, "value") == Ok(value) && GetString(f, "collection") == Ok(collection) by {
      assert f["value"] == JStr(value) && f["collection"] == JStr(collection);
    }
    assert DecodeOptList(j, "commands") == Ok(commands) by {
      if commands != [] {
        assert f["commands"] == JArr(EncodeList(commands));
        RoundTripList(commands);
      } else {
        assert "commands" !in f;
      }
    }
    assert GetInt(f, "line") == Ok(line) by {
      assert f["line"] == JInt(line);
    }
  }

  lemma {:induction false} RoundTripList(cs: seq<Command>)
    ensures DecodeList(EncodeList(cs)) == Ok(cs)
    decreases cs, 0
  {
    if cs != [] {
      var items := EncodeList(cs);
      assert items[0] == EncodeCommand(cs[0]) && items[1..] == EncodeList(cs[1..]);
      RoundTripCommand(cs[0]);
      RoundTripList(cs[1..]);
      assert [cs[0]] + cs[1..] == cs;
    }
  }

  lemma {:induction false} RoundTripThen(t: ThenBlock)
    ensures DecodeThen(EncodeThen(t)) == Ok(t)
    decreases t, 0
  {
    RoundTripConditions(t.conditions);
    RoundTripList(t.block);
  }

  lemma {:induction false} RoundTripThens(ts: seq<ThenBlock>)
    ensures DecodeThens(EncodeThens(ts)) == Ok(ts)
    decreases ts, 0
  {
    if ts != [] {
      var items := EncodeThens(ts);
      assert items == [EncodeThen(ts[0])] + EncodeThens(ts[1..]);
      RoundTripThen(ts[0]);
      RoundTripThens(ts[1..]);
      assert [ts[0]] + ts[1..] == ts;
    }
  }
}
