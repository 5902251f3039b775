/** The lexer of `NutLexical.swift`: the character `Buffer` with its line
    counter and stack of saved positions, and `NutLexical`, which reads
    tokens, HTML spans, commands and expressions from it. Every method is
    proved to return what the matching function of `LexSpec` computes and to
    leave the cursor where that function says. */
module Lexical {
  import opened Wrappers
  import opened Text
  import opened Tokens
  import opened Stacks
  import opened LexSpec

  /** A saved cursor, `(index: Int, line: Int)`. */
  datatype Mark = Mark(index: nat, line: int)

  /** Saved cursors that lie inside `content`, each with the line it had there. */
  ghost predicate MarksValid(content: string, marks: seq<Mark>) {
    forall k :: 0 <= k < |marks| ==> marks[k].index <= |content| && marks[k].line == LineAt(content, marks[k].index)
  }

  class Buffer {
    const content: string
    var index: nat
    var line: int
    /** The stack of saved cursors used by `stashIndex`/`popIndex`. */
    const indexes: Stack<Mark>

    /** The cursor is inside the text, the line counter agrees with the text
        consumed, and so does every saved cursor. */
    ghost predicate Valid()
      reads this, indexes
    {
      index <= |content| && line == LineAt(content, index) && MarksValid(content, indexes.elements)
    }

    constructor(content: string)
      ensures Valid() && fresh(indexes)
      ensures this.content == content && index == 0 && line == 1 && indexes.elements == []
    {
      this.content := content;
      index := 0;
      line := 1;
      indexes := new Stack<Mark>();
    }

    /** `next()`: returns the character under the cursor and advances by one;
        the line grows when the previous character was a line feed. At the
        end it returns nil and changes nothing. */
    method Next() returns (c: Option<char>)
      requires Valid()
      modifies this
      ensures Valid()
      ensures old(index) < |content| ==>
        c == Some(content[old(index)]) && index == old(index) + 1
        && line == 1 + Newlines(content[..old(index)])
      ensures old(index) == |content| ==> c == None && index == old(index) && line == old(line)
    {
      if index >= |content| {
        return None;
      }
      LineAtNext(content, index);
      if index > 0 && content[index - 1] == '\n' {
        line := line + 1;
      }
      c := Some(content[index]);
      index := index + 1;
    }

    /** `getNext()`: the character under the cursor, if any. */
    function GetNext(): (c: Option<char>)
      reads this
      requires index <= |content|
      ensures c.Some? <==> index < |content|
      ensures c.Some? ==> c.value == content[index]
    {
      if index < |content| then Some(content[index]) else None
    }

    /** `getNextNext()`: the character after the one under the cursor, if any. */
    function GetNextNext(): (c: Option<char>)
      reads this
      requires index <= |content|
      ensures c.Some? <==> index + 1 < |content|
      ensures c.Some? ==> c.value == content[index + 1]
    {
      if index + 1 < |content| then Some(content[index + 1]) else None
    }

    /** `skipWhite()`: consumes spaces, tabs and line feeds. */
    method SkipWhite()
      requires Valid()
      modifies this
      ensures Valid()
      ensures index == WhiteEnd(content, old(index))
    {
      while GetNext().Some? && IsWhite(GetNext().value)
        invariant Valid() && old(index) <= index
        invariant WhiteEnd(content, index) == WhiteEnd(content, old(index))
        decreases |content| - index
      {
        var _ := Next();
      }
    }

    /** `stashIndex()`: saves the cursor. */
    method StashIndex()
      requires Valid()
      modifies indexes
      ensures Valid()
      ensures indexes.elements == old(indexes.elements) + [Mark(index, line)]
    {
      indexes.Push(Mark(index, line));
    }

    /** `dropTopIndex()`: forgets the last saved cursor. */
    method DropTopIndex()
      requires Valid()
      modifies indexes
      ensures Valid()
      ensures indexes.elements == Popped(old(indexes.elements)).1
    {
      var _ := indexes.Pop();
    }

    /** `popIndex()`: moves back to the last saved cursor and forgets it; with
        nothing saved it does nothing. */
    method PopIndex()
      requires Valid()
      modifies this, indexes
      ensures Valid()
      ensures var (m, rest) := Popped(old(indexes.elements));
        indexes.elements == rest
        && (m.Some? ==> index == m.value.index && line == m.value.line)
        && (m.None? ==> index == old(index) && line == old(line))
    {
      var m := indexes.Pop();
      if m.Some? {
        index := m.value.index;
        line := m.value.line;
      }
    }

    /** The private `read(until:skipString:allowEOF:)`, with `skipString`
        false as everywhere in the lexer: reads up to the first of `stops`
        without consuming it. At the end it returns what it read and no stop
        when `allowEOF` is set, and otherwise moves back and returns nil. */
    method Read(stops: seq<char>, allowEOF: bool) returns (r: Option<(string, Option<char>)>)
      requires Valid()
      modifies this, indexes
      ensures Valid()
      ensures (r, index) == ReadAt(content, old(index), stops, allowEOF)
      ensures indexes.elements == old(indexes.elements)
    {
      if stops == [] {
        return None;
      }
      StashIndex();
      ghost var start := index;
      var stopped: Option<char> := None;
      var result := "";
      while stopped.None?
        invariant Valid() && start <= index <= |content|
        invariant result == content[start..index]
        invariant StopIndex(content, index, stops) == StopIndex(content, start, stops)
        invariant indexes.elements == old(indexes.elements) + [Mark(start, LineAt(content, start))]
        invariant stopped.Some? ==> index < |content| && stopped.value == content[index] && content[index] in stops
        decreases |content| - index, if stopped.None? then 1 else 0
      {
        var c := GetNext();
        if c.None? {
          if allowEOF {
            DropTopIndex();
            return Some((result, None));
          } else {
            PopIndex();
            return None;
          }
        }
        if c.value in stops {
          stopped := c;
        } else {
          SnocSlice(content, start, index);
          var _ := Next();
          result := result + [c.value];
        }
      }
      DropTopIndex();
      return Some((result, stopped));
    }

    /** `readEOF(until:)`: `read` allowing the end of the text. */
    method ReadEOF(stops: seq<char>) returns (value: string, stopped: Option<char>)
      requires Valid() && stops != []
      modifies this, indexes
      ensures Valid()
      ensures (Some((value, stopped)), index) == ReadAt(content, old(index), stops, true)
      ensures indexes.elements == old(indexes.elements)
    {
      var r := Read(stops, true);
      value, stopped := r.value.0, r.value.1;
    }
  }

  /** `NutLexical`: the lexer over one template. */
  class NutLexical {
    const buffer: Buffer

    ghost predicate Valid()
      reads this, buffer, buffer.indexes
    {
      buffer.Valid()
    }

    constructor(content: string)
      ensures Valid() && fresh(buffer) && fresh(buffer.indexes)
      ensures buffer.content == content && buffer.index == 0 && buffer.indexes.elements == []
    {
      buffer := new Buffer(content);
    }

    /** `nextToken()`. */
    method NextToken() returns (t: Option<Token>)
      requires Valid()
      modifies buffer
      ensures Valid()
      ensures (t, buffer.index) == TokenAt(buffer.content, old(buffer.index))
    {
      ghost var s := buffer.content;
      ghost var i := buffer.index;
      buffer.SkipWhite();
      ghost var w := buffer.index;
      var line := buffer.line;
      var c := buffer.Next();
      if c.None? {
        return None;
      }
      var ch := c.value;
      TokenAtFirst(s, i, w);
      var kind := PunctuationKind(ch);
      if kind.Some? {
        return Some(Token(kind.value, [ch], line));
      }
      var word := WordToken(w, ch, line);
      return Some(word);
    }

    /** The rest of `nextToken()` after a first character `ch` at `w` that is
        no punctuation: the word from `w`, a named argument when a colon ends
        it. */
    method WordToken(ghost w: nat, ch: char, line: int) returns (t: Token)
      requires Valid() && w < |buffer.content| && buffer.index == w + 1
      requires ch == buffer.content[w]
      modifies buffer
      ensures Valid()
      ensures var s := buffer.content;
        var j := WordEnd(s, w + 1);
        (t, buffer.index) == if j < |s| && s[j] == ':' then (Token(NamedArgument, s[w..j], line), j + 1)
          else (Token(TextToken, s[w..j], line), j)
    {
      ghost var s := buffer.content;
      var word, named := ReadWord();
      ghost var j := WordEnd(s, w + 1);
      Text.ConsSlice(s, w, j);
      t := Token(if named then NamedArgument else TextToken, [ch] + word, line);
    }

    /** The word loop of `nextToken()`: reads up to white space, punctuation
        or the end, or up to a colon, which it consumes. */
    method ReadWord() returns (word: string, named: bool)
      requires Valid()
      modifies buffer
      ensures Valid()
      ensures var j := WordEnd(buffer.content, old(buffer.index));
        word == buffer.content[old(buffer.index)..j]
        && (named <==> j < |buffer.content| && buffer.content[j] == ':')
        && buffer.index == (if named then j + 1 else j)
    {
      ghost var i := buffer.index;
      word := "";
      while buffer.GetNext().Some? && !EndsWord(buffer.GetNext().value)
        invariant Valid() && i <= buffer.index <= |buffer.content|
        invariant word == buffer.content[i..buffer.index]
        invariant WordEnd(buffer.content, buffer.index) == WordEnd(buffer.content, i)
        decreases |buffer.content| - buffer.index
      {
        if buffer.GetNext().value == ':' {
          var _ := buffer.Next();
          return word, true;
        }
        var n := buffer.Next();
        word := word + [n.value];
      }
      return word, false;
    }

    /** `getNextToken()`: the next token, read between `stashIndex` and
        `popIndex`, so that cursor, line and saved cursors are as before. */
    method GetNextToken() returns (t: Option<Token>)
      requires Valid()
      modifies buffer, buffer.indexes
      ensures Valid()
      ensures t == TokenAt(buffer.content, old(buffer.index)).0
      ensures buffer.index == old(buffer.index) && buffer.line == old(buffer.line)
      ensures buffer.indexes.elements == old(buffer.indexes.elements)
    {
      buffer.StashIndex();
      t := NextToken();
      buffer.PopIndex();
    }

    /** `getNextNextToken()`: the token after the next one, leaving no trace. */
    method GetNextNextToken() returns (t: Option<Token>)
      requires Valid()
      modifies buffer, buffer.indexes
      ensures Valid()
      ensures t == TokenAt(buffer.content, TokenAt(buffer.content, old(buffer.index)).1).0
      ensures buffer.index == old(buffer.index) && buffer.line == old(buffer.line)
      ensures buffer.indexes.elements == old(buffer.indexes.elements)
    {
      buffer.StashIndex();
      var _ := NextToken();
      t := NextToken();
      buffer.PopIndex();
    }

    /** The first loop of `nextHTML()`: consumes the leading line feeds and
        returns them. */
    method LeadingLineFeeds() returns (emptyLines: string)
      requires Valid()
      modifies buffer
      ensures Valid()
      ensures buffer.index == LineFeedsEnd(buffer.content, old(buffer.index))
      ensures emptyLines == buffer.content[old(buffer.index)..buffer.index]
    {
      ghost var i := buffer.index;
      emptyLines := "";
      while buffer.GetNext() == Some('\n')
        invariant Valid() && i <= buffer.index <= |buffer.content|
        invariant emptyLines == buffer.content[i..buffer.index]
        invariant LineFeedsEnd(buffer.content, buffer.index) == LineFeedsEnd(buffer.content, i)
        decreases |buffer.content| - buffer.index
      {
        var c := buffer.Next();
        emptyLines := emptyLines + [c.value];
      }
    }

    /** The second loop of `nextHTML()`: while the cursor sits on a doubled
        backslash, keeps one backslash and the text up to the next backslash. */
    method DoubledBackslashes(prefix: string) returns (html: string)
      requires Valid()
      requires buffer.index < |buffer.content| ==> buffer.content[buffer.index] == '\\'
      modifies buffer, buffer.indexes
      ensures Valid()
      ensures var tail := HtmlTail(buffer.content, old(buffer.index));
        html == prefix + tail.0 && buffer.index == tail.1
      ensures buffer.indexes.elements == old(buffer.indexes.elements)
    {
      ghost var s := buffer.content;
      ghost var tail := HtmlTail(s, buffer.index);
      html := prefix;
      while buffer.GetNextNext() == Some('\\')
        invariant Valid() && buffer.index <= |s|
        invariant buffer.index < |s| ==> s[buffer.index] == '\\'
        invariant html + HtmlTail(s, buffer.index).0 == prefix + tail.0
        invariant HtmlTail(s, buffer.index).1 == tail.1
        invariant buffer.indexes.elements == old(buffer.indexes.elements)
        decreases |s| - buffer.index
      {
        ghost var j := buffer.index;
        assert j + 1 < |s| && s[j] == '\\' && s[j + 1] == '\\';
        var v := SkipDoubledBackslash();
        ghost var k := buffer.index;
        assert k < |s| ==> s[k] in ['\\'];
        HtmlTailStep(s, j);
        assert HtmlTail(s, j) == (("\\" + v) + HtmlTail(s, k).0, HtmlTail(s, k).1);
        AppendAssoc(html, "\\" + v, HtmlTail(s, k).0);
        html := html + ("\\" + v);
      }
      assert HtmlTail(s, buffer.index) == ("", buffer.index);
      assert html + "" == html;
    }

    /** One turn of that loop: consumes both backslashes and reads the text
        up to the next backslash. */
    method SkipDoubledBackslash() returns (v: string)
      requires Valid()
      requires buffer.index + 1 < |buffer.content|
      modifies buffer, buffer.indexes
      ensures Valid()
      ensures buffer.index == StopIndex(buffer.content, old(buffer.index) + 2, ['\\'])
      ensures v == buffer.content[old(buffer.index) + 2..buffer.index]
      ensures buffer.indexes.elements == old(buffer.indexes.elements)
    {
      var _ := buffer.Next();
      var _ := buffer.Next();
      var stopped;
      v, stopped := buffer.ReadEOF(['\\']);
    }

    /** `nextHTML()`: the leading line feeds, the text up to the first
        backslash, then every doubled backslash with the text after it. */
    method NextHTML() returns (h: HTMLToken)
      requires Valid()
      modifies buffer, buffer.indexes
      ensures Valid()
      ensures (h, buffer.index) == HtmlAt(buffer.content, old(buffer.index))
      ensures buffer.indexes.elements == old(buffer.indexes.elements)
    {
      ghost var s := buffer.content;
      ghost var i := buffer.index;
      var line := buffer.line;
      var emptyLines := LeadingLineFeeds();
      ghost var j1 := StopIndex(s, buffer.index, ['\\']);
      var readValue, _ := buffer.ReadEOF(['\\']);
      assert emptyLines + readValue == s[i..j1];
      var html := DoubledBackslashes(emptyLines + readValue);
      return HTMLToken(html, line + |emptyLines|);
    }

    /** `nextTokenType()`: classifies what follows without consuming it. */
    method NextTokenType() returns (r: Result<Option<NextTokenType>, LexicalError>)
      requires Valid()
      ensures r == TokenTypeAt(buffer.content, buffer.index)
    {
      var next := buffer.GetNext();
      if next.None? {
        return Ok(None);
      }
      if next.value == '\\' {
        var nextNext := buffer.GetNextNext();
        if nextNext.None? {
          return Err(UnexpectedEnd("character"));
        }
        if nextNext.value == '\\' {
          return Ok(Some(Html));
        } else {
          return Ok(Some(Command));
        }
      }
      return Ok(Some(Html));
    }

    /** The `\}` branch of `nextCommand()`, entered with the `}` consumed:
        looks at the next token and, for the word `else`, consumes it and
        the token after it. */
    method BraceCommand(line: int) returns (r: Result<CommandToken, LexicalError>)
      requires Valid()
      modifies buffer, buffer.indexes
      ensures Valid()
      ensures (r, buffer.index) == AfterBrace(buffer.content, old(buffer.index), line)
      ensures buffer.indexes.elements == old(buffer.indexes.elements)
    {
      var els := GetNextToken();
      if els.Some? && els.value.id == TextToken && els.value.value == "else" {
        var _ := NextToken();
        var tok := NextToken();
        if tok.None? {
          return Err(UnexpectedEnd("'{' or 'if'"));
        }
        if tok.value.id == LeftCurly {
          return Ok(CommandToken(Else, line));
        } else if tok.value.id == TextToken && tok.value.value == "if" {
          return Ok(CommandToken(ElseIf, line));
        }
        // the command word is empty here, so the message is " else <token>"
        assert " " + els.value.value + " " == " else ";
        return Err(UnknownCommand(" " + els.value.value + " " + tok.value.value, tok.value.line));
      }
      return Ok(CommandToken(BlockEnd, line));
    }

    /** `nextCommand()`. */
    method NextCommand() returns (r: Result<Option<CommandToken>, LexicalError>)
      requires Valid()
      modifies buffer, buffer.indexes
      ensures Valid()
      ensures (r, buffer.index) == CommandAt(buffer.content, old(buffer.index))
      ensures buffer.indexes.elements == old(buffer.indexes.elements)
    {
      ghost var s := buffer.content;
      ghost var i := buffer.index;
      if buffer.GetNext() != Some('\\') {
        return Ok(None);
      }
      var _ := buffer.Next();
      var line := buffer.line;
      var word, stop := buffer.ReadEOF([' ', '\n', '(', '}']);
      ghost var j := buffer.index;
      CommandAtWord(s, i, j, word, stop);
      if word == "" && stop == Some('(') {
        return Ok(Some(CommandToken(EscapedValue, line)));
      }
      if word == "" && stop == Some('}') {
        var _ := buffer.Next();
        var b := BraceCommand(line);
        return if b.Ok? then Ok(Some(b.value)) else Err(b.error);
      }
      var cmd := CommandFromRaw(word);
      if cmd.None? {
        return Err(UnknownCommand(word, line));
      }
      return Ok(Some(CommandToken(cmd.value, line)));
    }

    /** `readExpression(until:)`. The parenthesis depth is counted outside
        double quotes only (see `LexSpec.ExprLoopAsWritten` for the loop as
        `NutLexical.swift` writes it). */
    method ReadExpression(stops: seq<char>) returns (r: Result<(Token, char), LexicalError>)
      requires Valid()
      modifies buffer
      ensures Valid()
      ensures (r, buffer.index) == ExpressionAt(buffer.content, old(buffer.index), stops)
    {
      ghost var s := buffer.content;
      ghost var final := ExpressionAt(s, buffer.index, stops);
      buffer.SkipWhite();
      var line := buffer.line;
      var stop: Option<char> := None;
      var result := "";
      var inString := false;
      var leftPars := 0;
      while stop.None?
        invariant Valid() && buffer.index <= |s|
        invariant stop.None? ==> ExprLoop(s, buffer.index, stops, result, inString, leftPars, line) == final
        invariant stop.Some? ==> (final ==
          (if result == "" then Err(UnexpectedCharacter("Identifier", stop.value, LineAt(s, buffer.index)))
           else Ok((Token(Expression, result, line), stop.value)), buffer.index))
        decreases |s| - buffer.index, if stop.None? then 1 else 0
      {
        var c := buffer.Next();
        if c.None? {
          return Err(UnexpectedEnd(StopList(stops)));
        }
        var ch := c.value;
        if !inString {
          if ch == '(' {
            leftPars := leftPars + 1;
          } else if ch == ')' {
            leftPars := leftPars - 1;
          }
          if ch == ')' {
            if ')' in stops && leftPars == -1 {
              stop := Some(')');
            } else {
              result := result + [ch];
            }
          } else if ch in stops {
            stop := Some(ch);
          } else {
            result := result + [ch];
          }
        } else {
          result := result + [ch];
        }
        if ch == '"' {
          inString := !inString;
        }
      }
      if result == "" {
        return Err(UnexpectedCharacter("Identifier", stop.value, buffer.line));
      }
      return Ok((Token(Expression, result, line), stop.value));
    }
  }
}
