/**
 * What holds of the lexer between two calls of `Next`, and why the token
 * stream ends: the invariant `Quiet`, which every call keeps, and a measure
 * that every call on a live lexer makes smaller.
 */
module LexerFacts {
  import opened Wrappers
  import opened SrlChar
  import opened Tokens
  import opened SrlLexer

  /**
   * Between two calls: the cursor is in range; unless the lexer has failed,
   * the buffer is empty and no escape is pending; the end states are reached
   * only at the end of the input.
   */
  predicate Quiet(c: Config, l: Lex) {
    && l.pos <= |c.src|
    && (l.state != Error ==> l.buffer == [] && !IsBackslash(l.lastChar))
    && (l.state == EndOfFile || l.state == Done ==> l.pos == |c.src|)
  }

  /** Both parentheses are keywords, as `get_token` on a group character expects. */
  predicate ParensKnown(c: Config) {
    "(" in c.table && ")" in c.table
  }

  predicate Terminal(s: State) {
    s == Error || s == Done
  }

  function Rank(s: State): nat {
    match s
    case Error => 0
    case Done => 0
    case EndOfFile => 1
    case Identifier => 2
    case _ => 3
  }

  /** Four per character still to read, plus the rank of the mode. */
  function Measure(c: Config, l: Lex): nat {
    4 * (if l.pos <= |c.src| then |c.src| - l.pos else 0) + Rank(l.state)
  }

  /** What a call of one mode leaves behind, when it started from a quiet lexer. */
  predicate Settled(c: Config, l: Lex, r: Outcome) {
    && l.pos <= r.after.pos <= |c.src|
    && (r.after.state != Error ==> r.after.buffer == [] && !IsBackslash(r.after.lastChar))
    && (r.after.state == EndOfFile || r.after.state == Done ==> r.after.pos == |c.src|)
    && (r.after.state == Done ==> r.token == Some(EofToken()))
    && (r.token.None? && ParensKnown(c) ==> r.after.state == Error)
    && (r.token == Some(EofToken()) ==> r.after.state == Done || EofToken() in c.table.Values)
  }

  /** The mode chosen after a token, as a table over token kinds. */
  lemma NextStateTable(t: TokenType)
    ensures NextState(t) == String <==>
              t in {Character(Raw), Character(Literally), Character(OneOf), Group(As)}
    ensures NextState(t) == Number <==>
              t in {Quantifier(Exactly), Quantifier(Between), Quantifier(And)}
    ensures NextState(t) == CharOrDigit <==> t.Specification?
    ensures NextState(t) == Start <==>
              t.Group? && t.group !in {As, GroupStart, GroupEnd}
    ensures NextState(t) == Identifier <==>
              (t.Group? ==> t.group in {GroupStart, GroupEnd}) && !t.Specification? &&
              t !in {Character(Raw), Character(Literally), Character(OneOf),
                     Quantifier(Exactly), Quantifier(Between), Quantifier(And)}
    ensures !Terminal(NextState(t)) && NextState(t) != EndOfFile
  {
  }

  lemma {:induction false} IdentLoopSettles(c: Config, l: Lex)
    requires l.pos <= |c.src| && l.state == Identifier && !IsBackslash(l.lastChar)
    ensures Settled(c, l, IdentLoop(c, l))
    ensures l.buffer == [] ==>
              IdentLoop(c, l).after.pos > l.pos || Terminal(IdentLoop(c, l).after.state)
    decreases |c.src| - l.pos
  {
    if l.pos < |c.src| {
      var ch := c.src[l.pos];
      if SkipSpace(l) && IsSrlWhitespace(ch) {
        IdentLoopSettles(c, l.(pos := l.pos + 1));
      } else if IsAsciiLetter(ch) {
        IdentLoopSettles(c, l.(pos := l.pos + 1, buffer := l.buffer + [ToAsciiLower(ch)], lastChar := ch));
      } else if (IsSrlWhitespace(ch) || IsGroupChar(ch)) && l.buffer != [] && l.buffer !in c.table
                && |l.buffer| < c.maxSpcIndex {
        IdentLoopSettles(c, l.(pos := l.pos + 1, buffer := l.buffer + [' '], lastChar := ' '));
      } else if (IsSrlWhitespace(ch) || IsGroupChar(ch)) && l.buffer == [] {
        assert !IsSrlWhitespace(ch);
        assert ParensKnown(c) ==> [ch] in c.table by {
          assert [ch] == "(" || [ch] == ")";
        }
      }
    }
  }

  lemma {:induction false} StringBodySettles(c: Config, l: Lex, q: char)
    requires l.pos <= |c.src|
    ensures Settled(c, l, StringBody(c, l, q))
    ensures StringBody(c, l, q).after.pos > l.pos || StringBody(c, l, q).after.state == Error
    decreases |c.src| - l.pos
  {
    if l.pos < |c.src| {
      var ch := c.src[l.pos];
      var l1 := l.(pos := l.pos + 1);
      if IsBackslash(ch) {
        if IsBackslash(l.lastChar) {
          StringBodySettles(c, l1.(buffer := l.buffer + [ch], lastChar := '\0'), q);
        } else {
          StringBodySettles(c, l1.(lastChar := ch), q);
        }
      } else if ch == q {
        if IsBackslash(l.lastChar) {
          StringBodySettles(c, l1.(buffer := l.buffer + [ch], lastChar := '\0'), q);
        }
      } else {
        StringBodySettles(c, l1.(buffer := l.buffer + [ch], lastChar := ch), q);
      }
    }
  }

  lemma {:induction false} StringOpenSettles(c: Config, l: Lex)
    requires l.pos <= |c.src|
    ensures Settled(c, l, StringOpen(c, l))
    ensures StringOpen(c, l).after.pos > l.pos || StringOpen(c, l).after.state == Error
    decreases |c.src| - l.pos
  {
    if l.pos < |c.src| {
      var ch := c.src[l.pos];
      if IsSrlWhitespace(ch) {
        StringOpenSettles(c, l.(pos := l.pos + 1));
      } else if IsQuote(ch) {
        StringBodySettles(c, l.(pos := l.pos + 1), ch);
      }
    }
  }

  lemma {:induction false} NumberLoopSettles(c: Config, l: Lex)
    requires l.pos <= |c.src| && l.state == Number && !IsBackslash(l.lastChar)
    ensures Settled(c, l, NumberLoop(c, l))
    ensures l.buffer == [] ==>
              NumberLoop(c, l).after.pos > l.pos || NumberLoop(c, l).after.state in {Error, Identifier}
    decreases |c.src| - l.pos
  {
    if l.pos < |c.src| {
      var ch := c.src[l.pos];
      if SkipSpace(l) && IsSrlWhitespace(ch) {
        NumberLoopSettles(c, l.(pos := l.pos + 1));
      } else if IsAsciiDigit(ch) {
        NumberLoopSettles(c, l.(pos := l.pos + 1, buffer := l.buffer + [ch], lastChar := ch));
      }
    }
  }

  lemma {:induction false} CharOrDigitLoopSettles(c: Config, l: Lex)
    requires l.pos <= |c.src| && !IsBackslash(l.lastChar)
    ensures Settled(c, l, CharOrDigitLoop(c, l))
    ensures CharOrDigitLoop(c, l).after.pos > l.pos || CharOrDigitLoop(c, l).after.state == Error
    decreases |c.src| - l.pos
  {
    if l.pos < |c.src| && IsSrlWhitespace(c.src[l.pos]) {
      CharOrDigitLoopSettles(c, l.(pos := l.pos + 1));
    }
  }

  lemma {:induction false} LexTokenSettles(c: Config, l: Lex)
    requires l.pos <= |c.src| && l.buffer == [] && !IsBackslash(l.lastChar)
    ensures Settled(c, l, LexToken(c, l))
    ensures LexToken(c, l).after.pos > l.pos || Terminal(LexToken(c, l).after.state)
    decreases |c.src| - l.pos
  {
    if l.pos < |c.src| {
      var ch := c.src[l.pos];
      if IsSrlWhitespace(ch) {
        LexTokenSettles(c, l.(pos := l.pos + 1));
      } else if IsQuote(ch) {
        StringOpenSettles(c, l.(state := String));
      } else if IsAsciiLetter(ch) || IsGroupChar(ch) {
        IdentLoopSettles(c, l.(state := Identifier));
      } else if IsAsciiDigit(ch) {
        var l0 := l.(state := Number);
        var l1 := l0.(pos := l.pos + 1, buffer := [ch], lastChar := ch);
        assert LexToken(c, l) == LexNumber(c, l);
        assert l0.buffer + [ch] == [ch];
        assert NumberLoop(c, l0) == NumberLoop(c, l1);
        NumberLoopSettles(c, l1);
      }
    }
  }

  /**
   * Every call of `Next` keeps `Quiet`; on a live lexer it makes the measure
   * smaller, and on a failed or finished one it returns nothing and changes
   * nothing. A call that ends in `Done` returned the EOF token at the end of
   * the input, and when both parentheses are keywords a call that returns
   * nothing leaves the lexer failed or finished.
   */
  lemma NextKeepsQuiet(c: Config, l: Lex)
    requires Quiet(c, l)
    ensures Quiet(c, LexNext(c, l).after)
    ensures Terminal(l.state) ==> LexNext(c, l) == Outcome(None, l)
    ensures !Terminal(l.state) ==> Measure(c, LexNext(c, l).after) < Measure(c, l)
    ensures LexNext(c, l).after.state == Done && l.state != Done ==>
              LexNext(c, l).token == Some(EofToken()) && LexNext(c, l).after.pos == |c.src|
    ensures LexNext(c, l).token.None? && ParensKnown(c) ==> Terminal(LexNext(c, l).after.state)
    ensures LexNext(c, l).token == Some(EofToken()) && EofToken() !in c.table.Values ==>
              LexNext(c, l).after.state == Done
  {
    match l.state
    case Start => LexTokenSettles(c, l);
    case Identifier => IdentLoopSettles(c, l.(state := Identifier));
    case String => StringOpenSettles(c, l.(state := String));
    case Number => NumberLoopSettles(c, l.(state := Number));
    case CharOrDigit => CharOrDigitLoopSettles(c, l.(state := CharOrDigit));
    case EndOfFile =>
    case Error =>
    case Done =>
  }

  /** Once failed or finished, the lexer returns nothing, forever. */
  lemma {:induction false} TerminalForever(c: Config, l: Lex, n: nat)
    requires Terminal(l.state)
    ensures Iterate(c, l, n) == l
    ensures LexNext(c, Iterate(c, l, n)).token == None
  {
    if n > 0 {
      TerminalForever(c, l, n - 1);
    }
  }

  /** The lexer after `n` calls of `Next`. */
  function Iterate(c: Config, l: Lex, n: nat): Lex {
    if n == 0 then l else LexNext(c, Iterate(c, l, n - 1)).after
  }

  /**
   * At the end of the input a live, quiet lexer in identifier or start mode, or
   * one that has already seen the end (`EndOfFile`), returns the EOF token once
   * and is then finished.
   */
  lemma EndYieldsOneEof(c: Config, l: Lex)
    requires Quiet(c, l) && l.pos == |c.src|
    requires l.state in {Start, Identifier, EndOfFile}
    ensures LexNext(c, l) == Outcome(Some(EofToken()), l.(state := Done))
    ensures LexNext(c, LexNext(c, l).after).token == None
  {
  }
  // ---------------------------------------------------------------------------
  // The token stream
  // ---------------------------------------------------------------------------

  /** The tokens the lexer returns before its first `None`. */
  function TokenStream(c: Config, l: Lex): seq<Token>
    requires Quiet(c, l)
    decreases Measure(c, l)
  {
    NextKeepsQuiet(c, l);
    var o := LexNext(c, l);
    if o.token.None? then [] else [o.token.value] + TokenStream(c, o.after)
  }

  /** The lexer once it has returned its first `None`. */
  function Final(c: Config, l: Lex): Lex
    requires Quiet(c, l)
    decreases Measure(c, l)
  {
    NextKeepsQuiet(c, l);
    var o := LexNext(c, l);
    if o.token.None? then o.after else Final(c, o.after)
  }

  /** With both parentheses keywords, the first `None` leaves the lexer failed or finished. */
  lemma {:induction false} FinalIsTerminal(c: Config, l: Lex)
    requires Quiet(c, l) && ParensKnown(c)
    ensures Terminal(Final(c, l).state)
    ensures LexNext(c, Final(c, l)).token == None
    decreases Measure(c, l)
  {
    NextKeepsQuiet(c, l);
    var o := LexNext(c, l);
    if o.token.Some? {
      FinalIsTerminal(c, o.after);
    }
  }

  /** A stream that leaves the lexer finished ends with the EOF token. */
  lemma {:induction false} StreamEndsWithEof(c: Config, l: Lex)
    requires Quiet(c, l) && l.state != Done && Final(c, l).state == Done
    ensures |TokenStream(c, l)| > 0 && TokenStream(c, l)[|TokenStream(c, l)| - 1] == EofToken()
    decreases Measure(c, l)
  {
    NextKeepsQuiet(c, l);
    var o := LexNext(c, l);
    var tk := o.token.value;
    NextKeepsQuiet(c, o.after);
    if o.after.state == Done {
      assert TokenStream(c, o.after) == [];
      assert TokenStream(c, l) == [tk];
    } else {
      StreamEndsWithEof(c, o.after);
      assert TokenStream(c, l) == [tk] + TokenStream(c, o.after);
    }
  }

  /**
   * Unless the keyword table itself holds the EOF token, the EOF token can
   * only be the last token of the stream.
   */
  lemma {:induction false} EofOnlyLast(c: Config, l: Lex)
    requires Quiet(c, l) && EofToken() !in c.table.Values
    ensures forall i | 0 <= i < |TokenStream(c, l)| - 1 :: TokenStream(c, l)[i] != EofToken()
    decreases Measure(c, l)
  {
    NextKeepsQuiet(c, l);
    var o := LexNext(c, l);
    if o.token.Some? {
      var tk := o.token.value;
      NextKeepsQuiet(c, o.after);
      assert TokenStream(c, l) == [tk] + TokenStream(c, o.after);
      if tk == EofToken() {
        assert TokenStream(c, o.after) == [];
      } else {
        EofOnlyLast(c, o.after);
      }
    }
  }
}
