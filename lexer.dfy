/**
 * The character-level lexer of the Simple Regex Language.
 *
 * The lexer is a state machine over a character cursor, a pending `buffer`,
 * the last character it recorded and a mode. Each call of `Next` runs the loop
 * of the current mode and returns at most one token; the kind of that token
 * selects the next mode (`NextState`).
 *
 * Every loop of the source is given twice: as a recursive function on a
 * snapshot `Lex` of the lexer's fields (the specification), and as a method of
 * class `Lexer` that runs the loop on the fields and is proved to agree with
 * that function. The properties of the lexer are lemmas about the functions
 * (modules LexerFacts, KeywordScan and LiteralScan).
 */
module SrlLexer {
  import opened Wrappers
  import opened SrlChar
  import opened Tokens

  /** The lexer's modes; `Start` is the source's `State::None`. */
  datatype State = Start | Identifier | String | Number | CharOrDigit | EndOfFile | Done | Error

  /**
   * What the lexer is given: the input, the keyword table (`get_token`) and
   * `MAX_SPC_INDEX`, the buffer length from which a missing keyword is an error.
   */
  datatype Config = Config(src: string, table: map<string, Token>, maxSpcIndex: nat)

  /** The lexer's fields: cursor position, buffer, last character and mode. */
  datatype Lex = Lex(pos: nat, buffer: string, lastChar: char, state: State)

  /** The token a call returns and the fields it leaves. */
  datatype Outcome = Outcome(token: Option<Token>, after: Lex)

  /** The fields of a freshly built lexer. */
  function Initial(): Lex {
    Lex(0, [], ' ', Start)
  }

  /** `get_token`: the keyword table looked up at `key`. */
  function GetToken(c: Config, key: string): Option<Token> {
    if key in c.table then Some(c.table[key]) else None
  }

  /** `next_state`: the mode that follows a token of kind `t`. */
  function NextState(t: TokenType): State {
    match t
    case Character(k) => if k == Raw || k == Literally || k == OneOf then String else Identifier
    case Quantifier(k) => if k == Exactly || k == Between || k == And then Number else Identifier
    case Specification(_) => CharOrDigit
    case Group(k) =>
      if k == As then String
      else if k == GroupStart || k == GroupEnd then Identifier
      else Start
    case _ => Identifier
  }

  /** `skip_space`: separators are skipped while the buffer is empty or after a space. */
  predicate SkipSpace(l: Lex) {
    l.buffer == [] || IsSpace(l.lastChar)
  }

  // ---------------------------------------------------------------------------
  // The loops, as functions of the fields
  // ---------------------------------------------------------------------------

  /** The loop of `next_identifier`. */
  function IdentLoop(c: Config, l: Lex): Outcome
    decreases |c.src| - l.pos
  {
    if l.pos >= |c.src| then
      if l.buffer == [] then Outcome(Some(EofToken()), l.(state := Done))
      else if l.buffer in c.table then Outcome(Some(c.table[l.buffer]), l.(buffer := [], state := EndOfFile))
      else Outcome(None, l.(state := Error))
    else
      var ch := c.src[l.pos];
      if SkipSpace(l) && IsSrlWhitespace(ch) then
        IdentLoop(c, l.(pos := l.pos + 1))
      else if IsAsciiLetter(ch) then
        IdentLoop(c, l.(pos := l.pos + 1, buffer := l.buffer + [ToAsciiLower(ch)], lastChar := ch))
      else if IsSrlWhitespace(ch) || IsGroupChar(ch) then
        if l.buffer == [] then
          Outcome(GetToken(c, [ch]), l.(pos := l.pos + 1, lastChar := ch))
        else if l.buffer in c.table then
          var t := c.table[l.buffer];
          Outcome(Some(t), l.(buffer := [], lastChar := ch, state := NextState(t.ty)))
        else if |l.buffer| < c.maxSpcIndex then
          IdentLoop(c, l.(pos := l.pos + 1, buffer := l.buffer + [' '], lastChar := ' '))
        else
          Outcome(None, l.(state := Error))
      else
        Outcome(None, l.(state := Error))
  }

  /** `next_identifier` */
  function LexIdentifier(c: Config, l: Lex): Outcome {
    IdentLoop(c, l.(state := Identifier))
  }

  /** The first loop of `next_string`: separators up to the opening quote. */
  function StringOpen(c: Config, l: Lex): Outcome
    decreases |c.src| - l.pos
  {
    if l.pos >= |c.src| then
      Outcome(None, l.(state := Error))
    else
      var ch := c.src[l.pos];
      if IsSrlWhitespace(ch) then StringOpen(c, l.(pos := l.pos + 1))
      else if IsQuote(ch) then StringBody(c, l.(pos := l.pos + 1), ch)
      else Outcome(None, l.(pos := l.pos + 1, state := Error))
  }

  /** The second loop of `next_string`, up to the closing quote `q`. */
  function StringBody(c: Config, l: Lex, q: char): Outcome
    decreases |c.src| - l.pos
  {
    if l.pos >= |c.src| then
      Outcome(None, l.(state := Error))
    else
      var ch := c.src[l.pos];
      var l1 := l.(pos := l.pos + 1);
      if IsBackslash(ch) then
        if IsBackslash(l.lastChar) then StringBody(c, l1.(buffer := l.buffer + [ch], lastChar := '\0'), q)
        else StringBody(c, l1.(lastChar := ch), q)
      else if ch == q then
        if IsBackslash(l.lastChar) then StringBody(c, l1.(buffer := l.buffer + [ch], lastChar := '\0'), q)
        else
          var t := StringToken(l.buffer);
          Outcome(Some(t), l1.(buffer := [], state := NextState(t.ty)))
      else
        StringBody(c, l1.(buffer := l.buffer + [ch], lastChar := ch), q)
  }

  /** `next_string` */
  function LexString(c: Config, l: Lex): Outcome {
    StringOpen(c, l.(state := String))
  }

  /** The loop of `next_number`. */
  function NumberLoop(c: Config, l: Lex): Outcome
    decreases |c.src| - l.pos
  {
    if l.pos >= |c.src| then
      if l.buffer == [] then Outcome(None, l.(state := Error))
      else Outcome(Some(NumberToken(l.buffer)), l.(buffer := [], state := EndOfFile))
    else
      var ch := c.src[l.pos];
      if SkipSpace(l) && IsSrlWhitespace(ch) then
        NumberLoop(c, l.(pos := l.pos + 1))
      else if IsAsciiDigit(ch) then
        NumberLoop(c, l.(pos := l.pos + 1, buffer := l.buffer + [ch], lastChar := ch))
      else if IsSrlWhitespace(ch) || IsGroupChar(ch) then
        var t := NumberToken(l.buffer);
        Outcome(Some(t), l.(buffer := [], lastChar := ' ', state := NextState(t.ty)))
      else
        Outcome(None, l.(state := Error))
  }

  /** `next_number` */
  function LexNumber(c: Config, l: Lex): Outcome {
    NumberLoop(c, l.(state := Number))
  }

  /** The loop of `next_char_or_digit`. */
  function CharOrDigitLoop(c: Config, l: Lex): Outcome
    decreases |c.src| - l.pos
  {
    if l.pos >= |c.src| then
      Outcome(None, l.(state := Error))
    else
      var ch := c.src[l.pos];
      var l1 := l.(pos := l.pos + 1);
      if IsSrlWhitespace(ch) then CharOrDigitLoop(c, l1)
      else if IsAsciiDigit(ch) then Outcome(Some(DigitToken(l.buffer + [ch])), l1.(buffer := [], state := Identifier))
      else if IsAsciiLetter(ch) then Outcome(Some(CharToken(l.buffer + [ch])), l1.(buffer := [], state := Identifier))
      else Outcome(None, l1.(state := Error))
  }

  /** `next_char_or_digit` */
  function LexCharOrDigit(c: Config, l: Lex): Outcome {
    CharOrDigitLoop(c, l.(state := CharOrDigit))
  }

  /** `next_token`: skip separators, then pick the mode from the first character. */
  function LexToken(c: Config, l: Lex): Outcome
    decreases |c.src| - l.pos
  {
    if l.pos >= |c.src| then
      Outcome(Some(EofToken()), l.(state := Done))
    else
      var ch := c.src[l.pos];
      if IsSrlWhitespace(ch) then LexToken(c, l.(pos := l.pos + 1))
      else if IsQuote(ch) then LexString(c, l)
      else if IsAsciiLetter(ch) || IsGroupChar(ch) then LexIdentifier(c, l)
      else if IsAsciiDigit(ch) then LexNumber(c, l)
      else Outcome(None, l.(state := Error))
  }

  /** `Iterator::next`: dispatch on the mode. */
  function LexNext(c: Config, l: Lex): Outcome {
    match l.state
    case Start => LexToken(c, l)
    case Identifier => LexIdentifier(c, l)
    case String => LexString(c, l)
    case Number => LexNumber(c, l)
    case CharOrDigit => LexCharOrDigit(c, l)
    case EndOfFile => Outcome(Some(EofToken()), l.(state := Done))
    case Error => Outcome(None, l)
    case Done => Outcome(None, l)
  }

  // ---------------------------------------------------------------------------
  // The lexer object
  // ---------------------------------------------------------------------------

  class Lexer {
    const src: string
    const table: map<string, Token>
    const maxSpcIndex: nat
    var pos: nat
    var buffer: string
    var lastChar: char
    var state: State

    /** The cursor never passes the end of the input. */
    ghost predicate Valid()
      reads this
    {
      pos <= |src|
    }

    function Cfg(): Config {
      Config(src, table, maxSpcIndex)
    }

    function Snap(): Lex
      reads this
    {
      Lex(pos, buffer, lastChar, state)
    }

    /** `Lexer::new` */
    constructor (src: string, table: map<string, Token>, maxSpcIndex: nat)
      ensures Valid()
      ensures Cfg() == Config(src, table, maxSpcIndex) && Snap() == Initial()
    {
      this.src := src;
      this.table := table;
      this.maxSpcIndex := maxSpcIndex;
      pos := 0;
      buffer := [];
      lastChar := ' ';
      state := Start;
    }

    /** `is_error` */
    function IsError(): bool
      reads this
    {
      state == Error
    }

    method NextIdentifier() returns (t: Option<Token>)
      requires Valid()
      modifies this
      ensures Valid()
      ensures Outcome(t, Snap()) == LexIdentifier(Cfg(), old(Snap()))
    {
      state := Identifier;
      ghost var goal := IdentLoop(Cfg(), Snap());
      while pos < |src|
        invariant pos <= |src| && state == Identifier
        invariant IdentLoop(Cfg(), Snap()) == goal
        decreases |src| - pos
      {
        var ch := src[pos];
        if SkipSpace(Snap()) && IsSrlWhitespace(ch) {
          pos := pos + 1;
          continue;
        }
        if IsAsciiLetter(ch) {
          buffer := buffer + [ToAsciiLower(ch)];
          pos := pos + 1;
          lastChar := ch;
        } else if IsSrlWhitespace(ch) || IsGroupChar(ch) {
          if buffer == [] {
            pos := pos + 1;
            lastChar := ch;
            t := GetToken(Cfg(), [ch]);
            return;
          } else if buffer in table {
            var token := table[buffer];
            buffer := [];
            lastChar := ch;
            state := NextState(token.ty);
            return Some(token);
          } else if |buffer| < maxSpcIndex {
            pos := pos + 1;
            buffer := buffer + [' '];
            lastChar := ' ';
          } else {
            state := Error;
            return None;
          }
        } else {
          state := Error;
          return None;
        }
      }
      if buffer == [] {
        state := Done;
        t := Some(EofToken());
      } else if buffer in table {
        var token := table[buffer];
        buffer := [];
        state := EndOfFile;
        t := Some(token);
      } else {
        state := Error;
        t := None;
      }
    }

    method NextString() returns (t: Option<Token>)
      requires Valid()
      modifies this
      ensures Valid()
      ensures Outcome(t, Snap()) == LexString(Cfg(), old(Snap()))
    {
      state := String;
      ghost var goal := StringOpen(Cfg(), Snap());
      var startChar := '\0';
      while pos < |src|
        invariant pos <= |src| && state == String
        invariant startChar == '\0' ==> StringOpen(Cfg(), Snap()) == goal
        invariant startChar != '\0' ==> IsQuote(startChar) && StringBody(Cfg(), Snap(), startChar) == goal
        decreases |src| - pos, if startChar == '\0' then 1 else 0
      {
        var ch := src[pos];
        pos := pos + 1;
        if IsSrlWhitespace(ch) {
          continue;
        } else if IsQuote(ch) {
          startChar := ch;
          break;
        } else {
          state := Error;
          return None;
        }
      }
      if startChar == '\0' {
        state := Error;
        return None;
      }
      while pos < |src|
        invariant pos <= |src|
        invariant StringBody(Cfg(), Snap(), startChar) == goal
        decreases |src| - pos
      {
        var ch := src[pos];
        pos := pos + 1;
        if IsBackslash(ch) {
          if IsBackslash(lastChar) {
            buffer := buffer + [ch];
            lastChar := '\0';
          } else {
            lastChar := ch;
          }
        } else if ch == startChar {
          if IsBackslash(lastChar) {
            buffer := buffer + [ch];
            lastChar := '\0';
          } else {
            var token := StringToken(buffer);
            buffer := [];
            state := NextState(token.ty);
            return Some(token);
          }
        } else {
          buffer := buffer + [ch];
          lastChar := ch;
        }
      }
      state := Error;
      t := None;
    }

    method NextNumber() returns (t: Option<Token>)
      requires Valid()
      modifies this
      ensures Valid()
      ensures Outcome(t, Snap()) == LexNumber(Cfg(), old(Snap()))
    {
      state := Number;
      ghost var goal := NumberLoop(Cfg(), Snap());
      while pos < |src|
        invariant pos <= |src| && state == Number
        invariant NumberLoop(Cfg(), Snap()) == goal
        decreases |src| - pos
      {
        var ch := src[pos];
        if SkipSpace(Snap()) && IsSrlWhitespace(ch) {
          pos := pos + 1;
          continue;
        } else if IsAsciiDigit(ch) {
          pos := pos + 1;
          buffer := buffer + [ch];
          lastChar := ch;
        } else if IsSrlWhitespace(ch) || IsGroupChar(ch) {
          var token := NumberToken(buffer);
          state := NextState(token.ty);
          buffer := [];
          lastChar := ' ';
          return Some(token);
        } else {
          state := Error;
          return None;
        }
      }
      if buffer == [] {
        state := Error;
        t := None;
      } else {
        var token := NumberToken(buffer);
        buffer := [];
        state := EndOfFile;
        t := Some(token);
      }
    }

    method NextCharOrDigit() returns (t: Option<Token>)
      requires Valid()
      modifies this
      ensures Valid()
      ensures Outcome(t, Snap()) == LexCharOrDigit(Cfg(), old(Snap()))
    {
      state := CharOrDigit;
      ghost var goal := CharOrDigitLoop(Cfg(), Snap());
      while pos < |src|
        invariant pos <= |src| && state == CharOrDigit
        invariant CharOrDigitLoop(Cfg(), Snap()) == goal
        decreases |src| - pos
      {
        var ch := src[pos];
        pos := pos + 1;
        if IsSrlWhitespace(ch) {
          continue;
        } else if IsAsciiDigit(ch) {
          buffer := buffer + [ch];
          var token := DigitToken(buffer);
          buffer := [];
          state := Identifier;
          return Some(token);
        } else if IsAsciiLetter(ch) {
          buffer := buffer + [ch];
          var token := CharToken(buffer);
          buffer := [];
          state := Identifier;
          return Some(token);
        } else {
          break;
        }
      }
      state := Error;
      t := None;
    }

    method NextToken() returns (t: Option<Token>)
      requires Valid()
      modifies this
      ensures Valid()
      ensures Outcome(t, Snap()) == LexToken(Cfg(), old(Snap()))
    {
      ghost var goal := LexToken(Cfg(), Snap());
      while pos < |src|
        invariant pos <= |src|
        invariant LexToken(Cfg(), Snap()) == goal
        decreases |src| - pos
      {
        var ch := src[pos];
        if IsSrlWhitespace(ch) {
          pos := pos + 1;
          continue;
        }
        if IsQuote(ch) {
          t := NextString();
          return;
        }
        if IsAsciiLetter(ch) || IsGroupChar(ch) {
          t := NextIdentifier();
          return;
        }
        if IsAsciiDigit(ch) {
          t := NextNumber();
          return;
        }
        state := Error;
        return None;
      }
      state := Done;
      t := Some(EofToken());
    }

    /** `Iterator::next` */
    method Next() returns (t: Option<Token>)
      requires Valid()
      modifies this
      ensures Valid()
      ensures Outcome(t, Snap()) == LexNext(Cfg(), old(Snap()))
    {
      match state
      case Start => t := NextToken();
      case Identifier => t := NextIdentifier();
      case String => t := NextString();
      case Number => t := NextNumber();
      case CharOrDigit => t := NextCharOrDigit();
      case EndOfFile =>
        state := Done;
        t := Some(EofToken());
      case Error => t := None;
      case Done => t := None;
    }
  }
}
