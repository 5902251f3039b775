/** The lexer's token values (`Tokens.swift`): argument-list tokens, HTML spans
    and command keywords, with their field-wise equality and their descriptions. */
module Tokens {
  import opened Wrappers
  import opened Text

  /** `Token.TokenType`: the kinds of token inside a command's argument list. */
  datatype TokenType =
    | LeftParentles | RightParentles | LeftCurly | RightCurly | Equal | Comma
    | TextToken | Expression | NamedArgument

  /** The enum's raw value: the punctuation character itself, or the case name
      for the cases declared without one. */
  function TokenRawValue(t: TokenType): string {
    match t
    case LeftParentles => "("
    case RightParentles => ")"
    case LeftCurly => "{"
    case RightCurly => "}"
    case Equal => "="
    case Comma => ","
    case TextToken => "text"
    case Expression => "expression"
    case NamedArgument => "namedArgument"
  }

  /** What `"\(tokenType)"` prints: the case name. */
  function TokenCaseName(t: TokenType): string {
    match t
    case LeftParentles => "leftParentles"
    case RightParentles => "rightParentles"
    case LeftCurly => "leftCurly"
    case RightCurly => "rightCurly"
    case Equal => "equal"
    case Comma => "comma"
    case TextToken => "text"
    case Expression => "expression"
    case NamedArgument => "namedArgument"
  }

  predicate IsPunctuation(t: TokenType) {
    t in {LeftParentles, RightParentles, LeftCurly, RightCurly, Equal, Comma}
  }

  /** The six punctuation kinds are spelled by one character each, and no two
      kinds share a raw value. */
  lemma PunctuationRawValues(t: TokenType, u: TokenType)
    ensures IsPunctuation(t) <==> |TokenRawValue(t)| == 1
    ensures TokenRawValue(t) == TokenRawValue(u) ==> t == u
  {
  }

  /** `Token`: a kind, the text it carries and the line it was read on. */
  datatype Token = Token(id: TokenType, value: string, line: int)

  /** The hand-written `==` of `Token`: kind, value and line must all agree. */
  predicate TokenEquals(a: Token, b: Token): (eq: bool)
    ensures eq <==> a == b
  {
    a.id == b.id && a.value == b.value && a.line == b.line
  }

  /** `Token.description`: `"<line>: <<raw value of the kind>> - <value>"`. */
  function TokenDescription(t: Token): (r: string)
    ensures var prefix := IntToString(t.line) + ": <";
      |r| == |prefix| + |TokenRawValue(t.id)| + 4 + |t.value|
      && r[..|prefix|] == prefix
      && r[|prefix|..|prefix| + |TokenRawValue(t.id)|] == TokenRawValue(t.id)
      && r[|prefix| + |TokenRawValue(t.id)|..|r| - |t.value|] == "> - "
      && r[|r| - |t.value|..] == t.value
  {
    IntToString(t.line) + ": <" + TokenRawValue(t.id) + "> - " + t.value
  }

  /** The line number is the leading run of the description up to the first ':'. */
  lemma DescriptionStartsWithLine(t: Token)
    requires t.line >= 0
    ensures var d := TokenDescription(t);
      var n := |IntToString(t.line)|;
      d[n] == ':' && (forall k :: 0 <= k < n ==> '0' <= d[k] <= '9')
      && ParseDigits(d[..n]) == t.line
  {
    var d := TokenDescription(t);
    var n := |IntToString(t.line)|;
    assert d[..n] == NatToString(t.line);
    ParseNatToString(t.line);
  }

  /** `NextTokenType`: what the next lexeme of the template is. */
  datatype NextTokenType = Html | Command

  /** `HTMLToken`: a literal span and the line reported for it. */
  datatype HTMLToken = HTMLToken(value: string, line: int)

  /** The hand-written `==` of `HTMLToken` compares exactly value and line. */
  predicate HTMLTokenEquals(a: HTMLToken, b: HTMLToken): (eq: bool)
    ensures eq <==> a == b
  {
    a.value == b.value && a.line == b.line
  }

  function HTMLTokenDescription(t: HTMLToken): string {
    IntToString(t.line) + ": <html> - " + t.value
  }

  /** `CommandToken.CommandTokenType`. */
  datatype CommandTokenType =
    | Title | Head | EscapedValue | RawValue | BlockEnd | Else | ElseIf
    | If | For | Date | Subview | Layout | View

  /** The raw values: the keyword for named commands, the brace forms for block
      ends, and the case name for `if` and `for`. */
  function CommandRawValue(t: CommandTokenType): string {
    match t
    case Title => "Title"
    case Head => "Head"
    case EscapedValue => "EscapedValue"
    case RawValue => "RawValue"
    case BlockEnd => "}"
    case Else => "} else {"
    case ElseIf => "} else if"
    case If => "if"
    case For => "for"
    case Date => "Date"
    case Subview => "Subview"
    case Layout => "Layout"
    case View => "View"
  }

  /** What `"\(commandType)"` prints: the case name. */
  function CommandCaseName(t: CommandTokenType): string {
    match t
    case Title => "title"
    case Head => "head"
    case EscapedValue => "escapedValue"
    case RawValue => "rawValue"
    case BlockEnd => "blockEnd"
    case Else => "else"
    case ElseIf => "elseIf"
    case If => "if"
    case For => "for"
    case Date => "date"
    case Subview => "subview"
    case Layout => "layout"
    case View => "view"
  }

  /** `CommandTokenType(rawValue:)`: exact lookup of a raw value. */
  function CommandFromRaw(s: string): (r: Option<CommandTokenType>)
    ensures r.Some? ==> CommandRawValue(r.value) == s
  {
    if s == "Title" then Some(Title)
    else if s == "Head" then Some(Head)
    else if s == "EscapedValue" then Some(EscapedValue)
    else if s == "RawValue" then Some(RawValue)
    else if s == "}" then Some(BlockEnd)
    else if s == "} else {" then Some(Else)
    else if s == "} else if" then Some(ElseIf)
    else if s == "if" then Some(If)
    else if s == "for" then Some(For)
    else if s == "Date" then Some(Date)
    else if s == "Subview" then Some(Subview)
    else if s == "Layout" then Some(Layout)
    else if s == "View" then Some(View)
    else None
  }

  /** Lookup by raw value is the inverse of `CommandRawValue`. */
  lemma CommandFromRawInverse(s: string, t: CommandTokenType)
    ensures CommandFromRaw(s) == Some(t) <==> CommandRawValue(t) == s
  {
  }

  /** The words a command name can be: no space, newline, '(' or '}'. */
  predicate IsCommandWord(s: string) {
    forall k :: 0 <= k < |s| ==> s[k] != ' ' && s[k] != '\n' && s[k] != '(' && s[k] != '}'
  }

  /** Among words the lexer can read after a backslash, exactly these ten name a
      command; every other word is unknown. */
  lemma KeywordsOfWords(s: string)
    ensures IsCommandWord(s) ==> (CommandFromRaw(s).Some? <==>
      s in {"Title", "Head", "EscapedValue", "RawValue", "if", "for", "Date", "Subview", "Layout", "View"})
  {
    if s == "}" || s == "} else {" || s == "} else if" {
      assert !IsCommandWord(s) by { assert s[0] == '}'; }
    }
  }

  /** `CommandToken`: which command, and the line of its backslash. */
  datatype CommandToken = CommandToken(cmdType: CommandTokenType, line: int)

  /** The hand-written `==` of `CommandToken` compares exactly type and line. */
  predicate CommandTokenEquals(a: CommandToken, b: CommandToken): (eq: bool)
    ensures eq <==> a == b
  {
    a.cmdType == b.cmdType && a.line == b.line
  }

  function CommandTokenDescription(t: CommandToken): string {
    IntToString(t.line) + ": <" + CommandRawValue(t.cmdType) + ">"
  }
}
