/**
 * The value modes of the lexer: quoted strings with backslash escapes,
 * numbers, and the single character or digit after `from` / `to`; and the
 * dispatch of `next_token` on the first character of a token.
 */
module LiteralScan {
  import opened Wrappers
  import opened SrlChar
  import opened Tokens
  import opened SrlLexer

  /** How one character of a string value is written between quotes `q`. */
  function EscapeChar(x: char, q: char): string {
    if IsBackslash(x) || x == q then ['\\', x] else [x]
  }

  /** How a string value is written between quotes `q`. */
  function Escape(p: string, q: char): string {
    if p == [] then [] else EscapeChar(p[0], q) + Escape(p[1..], q)
  }

  /** The last character `next_string` records after reading the written form of `p`. */
  function LastRecorded(p: string, q: char, lc: char): char {
    if p == [] then lc
    else if IsBackslash(p[|p| - 1]) || p[|p| - 1] == q then '\0'
    else p[|p| - 1]
  }

  predicate AllDigits(d: string) {
    forall i | 0 <= i < |d| :: IsAsciiDigit(d[i])
  }

  // ---------------------------------------------------------------------------
  // Where a piece of text sits in the input
  // ---------------------------------------------------------------------------

  /** The input `s` holds `w` from position `k` on. */
  predicate Occurs(s: string, k: nat, w: string) {
    k + |w| <= |s| && forall i | 0 <= i < |w| :: s[k + i] == w[i]
  }

  lemma Assoc(a: string, b: string, d: string)
    ensures (a + b) + d == a + (b + d)
  {
  }

  lemma OccursAt(s: string, k: nat, w: string, i: nat)
    requires Occurs(s, k, w) && i < |w|
    ensures s[k + i] == w[i]
  {
  }

  /** Text `a + b` at `k` is `a` at `k` followed by `b` at `k + |a|`. */
  lemma OccursSplit(s: string, k: nat, a: string, b: string)
    requires Occurs(s, k, a + b)
    ensures Occurs(s, k, a) && Occurs(s, k + |a|, b)
  {
    forall i | 0 <= i < |a| ensures s[k + i] == a[i] {
      assert (a + b)[i] == a[i];
    }
    forall i | 0 <= i < |b| ensures s[k + |a| + i] == b[i] {
      assert (a + b)[|a| + i] == b[i];
    }
  }

  lemma OccursSlice(s: string, k: nat, w: string)
    requires Occurs(s, k, w)
    ensures s[k..k + |w|] == w
  {
  }

  // ---------------------------------------------------------------------------
  // Strings
  // ---------------------------------------------------------------------------

  /** The written form of a non-empty `p` is that of its first character, then that of the rest. */
  lemma EscapeStep(s: string, k: nat, p: string, q: char, t: string)
    requires p != [] && Occurs(s, k, Escape(p, q) + t)
    ensures |Escape(p, q)| == |EscapeChar(p[0], q)| + |Escape(p[1..], q)|
    ensures Occurs(s, k, EscapeChar(p[0], q))
    ensures Occurs(s, k + |EscapeChar(p[0], q)|, Escape(p[1..], q) + t)
  {
    var e0, rest := EscapeChar(p[0], q), Escape(p[1..], q);
    assert Escape(p, q) == e0 + rest;
    Assoc(e0, rest, t);
    OccursSplit(s, k, e0, rest + t);
  }

  /**
   * Reading the written form of one character `x` appends `x` to the buffer,
   * whether it was escaped or not.
   */
  lemma StringBodyChar(c: Config, l: Lex, q: char, x: char)
    requires IsQuote(q) && !IsBackslash(l.lastChar)
    requires Occurs(c.src, l.pos, EscapeChar(x, q))
    ensures StringBody(c, l, q) ==
              StringBody(c, l.(pos := l.pos + |EscapeChar(x, q)|, buffer := l.buffer + [x],
                               lastChar := LastRecorded([x], q, l.lastChar)), q)
  {
    var e0 := EscapeChar(x, q);
    OccursAt(c.src, l.pos, e0, 0);
    if IsBackslash(x) || x == q {
      OccursAt(c.src, l.pos, e0, 1);
      assert StringBody(c, l, q) == StringBody(c, l.(pos := l.pos + 1, lastChar := '\\'), q);
    }
  }

  /** The closing quote, not escaped, ends the body and returns the buffer. */
  lemma StringBodyClose(c: Config, l: Lex, q: char)
    requires IsQuote(q) && !IsBackslash(l.lastChar)
    requires l.pos < |c.src| && c.src[l.pos] == q
    ensures StringBody(c, l, q) == Outcome(Some(StringToken(l.buffer)), Lex(l.pos + 1, [], l.lastChar, Identifier))
  {
  }

  /** The last character recorded for `[x] + p` is the one recorded for `p` after `x`. */
  lemma LastRecordedCons(x: char, p: string, q: char, lc: char)
    ensures LastRecorded([x] + p, q, lc) == LastRecorded(p, q, LastRecorded([x], q, lc))
  {
    if p != [] {
      assert ([x] + p)[|[x] + p| - 1] == p[|p| - 1];
    }
  }

  /**
   * The string body loop reads the written form of `p` up to the closing
   * quote: the token holds `p`, the cursor is just after the closing quote,
   * the buffer is emptied and the mode goes back to identifier.
   */
  lemma {:induction false} StringBodyReads(c: Config, l: Lex, q: char, p: string)
    requires IsQuote(q) && !IsBackslash(l.lastChar)
    requires Occurs(c.src, l.pos, Escape(p, q) + [q])
    ensures StringBody(c, l, q) ==
              Outcome(Some(StringToken(l.buffer + p)),
                      Lex(l.pos + |Escape(p, q)| + 1, [], LastRecorded(p, q, l.lastChar), Identifier))
    decreases |p|
  {
    if p == [] {
      assert Escape(p, q) + [q] == [q];
      OccursAt(c.src, l.pos, [q], 0);
      StringBodyClose(c, l, q);
      assert l.buffer + p == l.buffer;
    } else {
      var x, p' := p[0], p[1..];
      EscapeStep(c.src, l.pos, p, q, [q]);
      var l' := l.(pos := l.pos + |EscapeChar(x, q)|, buffer := l.buffer + [x],
                   lastChar := LastRecorded([x], q, l.lastChar));
      StringBodyChar(c, l, q, x);
      StringBodyReads(c, l', q, p');
      assert p == [x] + p';
      LastRecordedCons(x, p', q, l.lastChar);
      assert l'.buffer + p' == l.buffer + p;
    }
  }

  /**
   * Without its closing quote a string is an error, whether the input ends
   * right after the written form of `p` or after one more lone backslash `t`.
   */
  lemma {:induction false} StringBodyUnterminated(c: Config, l: Lex, q: char, p: string, t: string)
    requires IsQuote(q) && !IsBackslash(l.lastChar)
    requires t == [] || t == ['\\']
    requires Occurs(c.src, l.pos, Escape(p, q) + t) && l.pos + |Escape(p, q)| + |t| == |c.src|
    ensures StringBody(c, l, q).token == None && StringBody(c, l, q).after.state == Error
    decreases |p|
  {
    if p == [] {
      assert Escape(p, q) + t == t;
      if t != [] {
        OccursAt(c.src, l.pos, t, 0);
      }
    } else {
      var x, p' := p[0], p[1..];
      EscapeStep(c.src, l.pos, p, q, t);
      var l' := l.(pos := l.pos + |EscapeChar(x, q)|, buffer := l.buffer + [x],
                   lastChar := LastRecorded([x], q, l.lastChar));
      StringBodyChar(c, l, q, x);
      StringBodyUnterminated(c, l', q, p', t);
    }
  }

  /**
   * Whatever the body holds, a string whose closing quote character does not
   * occur again before the end of the input is an error.
   */
  lemma {:induction false} StringBodyNoQuote(c: Config, l: Lex, q: char)
    requires l.pos <= |c.src|
    requires forall j | l.pos <= j < |c.src| :: c.src[j] != q
    ensures StringBody(c, l, q).token == None && StringBody(c, l, q).after.state == Error
    decreases |c.src| - l.pos
  {
    if l.pos < |c.src| {
      var ch := c.src[l.pos];
      if IsBackslash(ch) && IsBackslash(l.lastChar) {
        StringBodyNoQuote(c, l.(pos := l.pos + 1, buffer := l.buffer + [ch], lastChar := '\0'), q);
      } else if IsBackslash(ch) {
        StringBodyNoQuote(c, l.(pos := l.pos + 1, lastChar := ch), q);
      } else {
        StringBodyNoQuote(c, l.(pos := l.pos + 1, buffer := l.buffer + [ch], lastChar := ch), q);
      }
    }
  }

  /**
   * `next_string` drops a backslash that is not followed by a backslash or
   * the closing quote, and keeps the character after it.
   */
  lemma StringDropsStrayBackslash(c: Config, l: Lex, q: char)
    requires IsQuote(q) && !IsBackslash(l.lastChar)
    requires l.pos + 1 < |c.src| && IsBackslash(c.src[l.pos])
    requires !IsBackslash(c.src[l.pos + 1]) && c.src[l.pos + 1] != q
    ensures StringBody(c, l, q) ==
              StringBody(c, l.(pos := l.pos + 2, buffer := l.buffer + [c.src[l.pos + 1]],
                               lastChar := c.src[l.pos + 1]), q)
  {
    assert StringBody(c, l, q) == StringBody(c, l.(pos := l.pos + 1, lastChar := '\\'), q);
  }

  /** Separators before the opening quote are skipped. */
  lemma {:induction false} StringOpenSkips(c: Config, l: Lex, q: nat)
    requires l.pos <= q <= |c.src| && AllSeparators(c.src[l.pos..q])
    ensures StringOpen(c, l) == StringOpen(c, l.(pos := q))
    decreases q - l.pos
  {
    if l.pos < q {
      assert IsSrlWhitespace(c.src[l.pos..q][0]);
      assert c.src[l.pos + 1..q] == c.src[l.pos..q][1..];
      StringOpenSkips(c, l.(pos := l.pos + 1), q);
    }
  }

  /**
   * Separators then a quote at `k`: the string body starts after the quote.
   * The input from `l.pos` on holds `seps`, then the quote, then `body`.
   */
  lemma StringOpens(c: Config, l: Lex, seps: string, q: char, body: string)
    requires IsQuote(q) && AllSeparators(seps)
    requires Occurs(c.src, l.pos, seps + ([q] + body))
    ensures Occurs(c.src, l.pos + |seps| + 1, body)
    ensures LexString(c, l) == StringBody(c, l.(pos := l.pos + |seps| + 1, state := String), q)
  {
    var k := l.pos + |seps|;
    OccursSplit(c.src, l.pos, seps, [q] + body);
    OccursSplit(c.src, k, [q], body);
    OccursAt(c.src, k, [q], 0);
    OccursSlice(c.src, l.pos, seps);
    StringOpenSkips(c, l.(state := String), k);
  }

  /**
   * The string round trip: separators, an opening quote, the written form
   * of any `p` and the same closing quote give the string token `p`, with
   * the cursor just after the closing quote and the mode back to identifier.
   */
  lemma StringRoundTrip(c: Config, l: Lex, seps: string, q: char, p: string)
    requires l.buffer == [] && !IsBackslash(l.lastChar)
    requires IsQuote(q) && AllSeparators(seps)
    requires Occurs(c.src, l.pos, seps + [q] + Escape(p, q) + [q])
    ensures LexString(c, l) ==
              Outcome(Some(StringToken(p)),
                      Lex(l.pos + |seps| + |Escape(p, q)| + 2, [], LastRecorded(p, q, l.lastChar), Identifier))
  {
    var e := Escape(p, q);
    Assoc(seps + [q], e, [q]);
    Assoc(seps, [q], e + [q]);
    StringOpens(c, l, seps, q, e + [q]);
    StringBodyReads(c, l.(pos := l.pos + |seps| + 1, state := String), q, p);
    assert [] + p == p;
  }

  /**
   * Separators, an opening quote and a body that the input ends in before
   * the closing quote are an error.
   */
  lemma StringUnterminated(c: Config, l: Lex, seps: string, q: char, p: string, t: string)
    requires !IsBackslash(l.lastChar)
    requires IsQuote(q) && AllSeparators(seps)
    requires t == [] || t == ['\\']
    requires Occurs(c.src, l.pos, seps + [q] + Escape(p, q) + t)
    requires l.pos + |seps| + 1 + |Escape(p, q)| + |t| == |c.src|
    ensures LexString(c, l).token == None && LexString(c, l).after.state == Error
  {
    var e := Escape(p, q);
    Assoc(seps + [q], e, t);
    Assoc(seps, [q], e + t);
    StringOpens(c, l, seps, q, e + t);
    StringBodyUnterminated(c, l.(pos := l.pos + |seps| + 1, state := String), q, p, t);
  }

  /**
   * Separators, an opening quote at `k`, and no later occurrence of that
   * quote character: the string is an error.
   */
  lemma StringNoClosingQuote(c: Config, l: Lex, k: nat)
    requires l.pos <= k < |c.src| && AllSeparators(c.src[l.pos..k]) && IsQuote(c.src[k])
    requires forall j | k < j < |c.src| :: c.src[j] != c.src[k]
    ensures LexString(c, l).token == None && LexString(c, l).after.state == Error
  {
    StringOpenSkips(c, l.(state := String), k);
    StringBodyNoQuote(c, l.(pos := k + 1, state := String), c.src[k]);
  }

  /**
   * Without an opening quote a string is an error: the first character that
   * is neither a separator nor a quote is consumed and the lexer fails, and
   * so it does when only separators are left.
   */
  lemma StringNeedsQuote(c: Config, l: Lex, q: nat)
    requires l.pos <= q <= |c.src| && AllSeparators(c.src[l.pos..q])
    ensures q < |c.src| && !IsSrlWhitespace(c.src[q]) && !IsQuote(c.src[q]) ==>
              LexString(c, l) == Outcome(None, l.(pos := q + 1, state := Error))
    ensures q == |c.src| ==> LexString(c, l) == Outcome(None, l.(pos := q, state := Error))
  {
    StringOpenSkips(c, l.(state := String), q);
  }

  // ---------------------------------------------------------------------------
  // Numbers
  // ---------------------------------------------------------------------------

  /** Separators before the first digit are skipped. */
  lemma {:induction false} NumberSkips(c: Config, l: Lex, q: nat)
    requires l.state == Number && l.buffer == []
    requires l.pos <= q <= |c.src| && AllSeparators(c.src[l.pos..q])
    ensures NumberLoop(c, l) == NumberLoop(c, l.(pos := q))
    decreases q - l.pos
  {
    if l.pos < q {
      assert IsSrlWhitespace(c.src[l.pos..q][0]);
      assert c.src[l.pos + 1..q] == c.src[l.pos..q][1..];
      NumberSkips(c, l.(pos := l.pos + 1), q);
    }
  }

  /** Digits are appended to the buffer one by one. */
  lemma {:induction false} NumberDigits(c: Config, l: Lex, d: string)
    requires l.state == Number && |d| > 0 && AllDigits(d)
    requires Occurs(c.src, l.pos, d)
    ensures NumberLoop(c, l) ==
              NumberLoop(c, l.(pos := l.pos + |d|, buffer := l.buffer + d, lastChar := d[|d| - 1]))
    decreases |d|
  {
    OccursAt(c.src, l.pos, d, 0);
    assert IsAsciiDigit(d[0]);
    var l1 := l.(pos := l.pos + 1, buffer := l.buffer + [d[0]], lastChar := d[0]);
    assert NumberLoop(c, l) == NumberLoop(c, l1);
    if |d| > 1 {
      assert d == [d[0]] + d[1..];
      OccursSplit(c.src, l.pos, [d[0]], d[1..]);
      NumberDigits(c, l1, d[1..]);
      Assoc(l.buffer, [d[0]], d[1..]);
    } else {
      assert l.buffer + d == l1.buffer;
    }
  }

  /** No digit left: the first character after the run decides. */
  lemma NumberEnd(c: Config, l: Lex)
    requires l.state == Number && l.pos <= |c.src|
    requires l.pos < |c.src| ==> !IsAsciiDigit(c.src[l.pos])
    requires SkipSpace(l) && l.pos < |c.src| ==> !IsSrlWhitespace(c.src[l.pos])
    ensures var r := NumberLoop(c, l);
      && (l.pos < |c.src| && (IsSrlWhitespace(c.src[l.pos]) || IsGroupChar(c.src[l.pos])) ==>
            r == Outcome(Some(NumberToken(l.buffer)), Lex(l.pos, [], ' ', Identifier)))
      && (l.buffer != [] && l.pos == |c.src| ==>
            r == Outcome(Some(NumberToken(l.buffer)), Lex(l.pos, [], l.lastChar, EndOfFile)))
      && (l.buffer == [] && l.pos == |c.src| ==> r.token == None && r.after.state == Error)
      && (l.pos < |c.src| && !IsSrlWhitespace(c.src[l.pos]) && !IsGroupChar(c.src[l.pos]) ==>
            r.token == None && r.after.state == Error)
  {
    ClassesDisjoint(if l.pos < |c.src| then c.src[l.pos] else ' ');
  }

  /**
   * The number theorem. After separators, a run `d` of digits ends at a
   * separator, a parenthesis or the end of the input:
   * - with `d` non-empty the token is NUMBER `d`; a terminating character is
   *   left unread and the mode goes back to identifier, the end of the
   *   input gives `EndOfFile`;
   * - with `d` empty, a parenthesis gives NUMBER "" and the end of the input
   *   is an error;
   * - a character of any other kind after the digits is an error.
   */
  lemma NumberScan(c: Config, l: Lex, seps: string, d: string)
    requires l.buffer == [] && AllSeparators(seps) && AllDigits(d)
    requires Occurs(c.src, l.pos, seps + d)
    requires |d| > 0 || l.pos + |seps| == |c.src| || !IsSrlWhitespace(c.src[l.pos + |seps|])
    ensures var q := l.pos + |seps| + |d|; var r := LexNumber(c, l);
      && (|d| > 0 && q < |c.src| && (IsSrlWhitespace(c.src[q]) || IsGroupChar(c.src[q])) ==>
            r == Outcome(Some(NumberToken(d)), Lex(q, [], ' ', Identifier)))
      && (|d| > 0 && q == |c.src| ==>
            r == Outcome(Some(NumberToken(d)), Lex(q, [], d[|d| - 1], EndOfFile)))
      && (|d| == 0 && q < |c.src| && IsGroupChar(c.src[q]) ==>
            r == Outcome(Some(NumberToken([])), Lex(q, [], ' ', Identifier)))
      && (|d| == 0 && q == |c.src| ==> r.token == None && r.after.state == Error)
      && (q < |c.src| && !IsAsciiDigit(c.src[q]) && !IsSrlWhitespace(c.src[q]) && !IsGroupChar(c.src[q]) ==>
            r.token == None && r.after.state == Error)
  {
    var k := l.pos + |seps|;
    OccursSplit(c.src, l.pos, seps, d);
    OccursSlice(c.src, l.pos, seps);
    var l0 := l.(state := Number);
    NumberSkips(c, l0, k);
    var q := k + |d|;
    if |d| > 0 {
      NumberDigits(c, l0.(pos := k), d);
      assert [] + d == d;
      if q == |c.src| || !IsAsciiDigit(c.src[q]) {
        NumberEnd(c, l0.(pos := q, buffer := d, lastChar := d[|d| - 1]));
      }
    } else if q == |c.src| || !IsAsciiDigit(c.src[q]) {
      NumberEnd(c, l0.(pos := k));
    }
  }

  // ---------------------------------------------------------------------------
  // The character or digit after `from` / `to`
  // ---------------------------------------------------------------------------

  /** Separators are skipped in character-or-digit mode. */
  lemma {:induction false} CharOrDigitSkips(c: Config, l: Lex, q: nat)
    requires l.pos <= q <= |c.src| && AllSeparators(c.src[l.pos..q])
    ensures CharOrDigitLoop(c, l) == CharOrDigitLoop(c, l.(pos := q))
    decreases q - l.pos
  {
    if l.pos < q {
      assert IsSrlWhitespace(c.src[l.pos..q][0]);
      assert c.src[l.pos + 1..q] == c.src[l.pos..q][1..];
      CharOrDigitSkips(c, l.(pos := l.pos + 1), q);
    }
  }

  /**
   * After separators, one digit gives DIGIT, one letter gives CHAR, both
   * consumed and followed by identifier mode; anything else, or the end of
   * the input, is an error.
   */
  lemma CharOrDigitScan(c: Config, l: Lex, q: nat)
    requires l.buffer == []
    requires l.pos <= q <= |c.src| && AllSeparators(c.src[l.pos..q])
    ensures q < |c.src| && IsAsciiDigit(c.src[q]) ==>
              LexCharOrDigit(c, l) == Outcome(Some(DigitToken([c.src[q]])), Lex(q + 1, [], l.lastChar, Identifier))
    ensures q < |c.src| && IsAsciiLetter(c.src[q]) ==>
              LexCharOrDigit(c, l) == Outcome(Some(CharToken([c.src[q]])), Lex(q + 1, [], l.lastChar, Identifier))
    ensures q < |c.src| && !IsSrlWhitespace(c.src[q]) && !IsAsciiDigit(c.src[q]) && !IsAsciiLetter(c.src[q]) ==>
              LexCharOrDigit(c, l).token == None && LexCharOrDigit(c, l).after.state == Error
    ensures q == |c.src| ==> LexCharOrDigit(c, l).token == None && LexCharOrDigit(c, l).after.state == Error
  {
    CharOrDigitSkips(c, l.(state := CharOrDigit), q);
    if q < |c.src| {
      assert l.buffer + [c.src[q]] == [c.src[q]];
    }
  }

  // ---------------------------------------------------------------------------
  // `next_token`
  // ---------------------------------------------------------------------------

  /** Separators are skipped before a token. */
  lemma {:induction false} TokenSkips(c: Config, l: Lex, q: nat)
    requires l.pos <= q <= |c.src| && AllSeparators(c.src[l.pos..q])
    ensures LexToken(c, l) == LexToken(c, l.(pos := q))
    decreases q - l.pos
  {
    if l.pos < q {
      assert IsSrlWhitespace(c.src[l.pos..q][0]);
      assert c.src[l.pos + 1..q] == c.src[l.pos..q][1..];
      TokenSkips(c, l.(pos := l.pos + 1), q);
    }
  }

  /**
   * After separators, the first character picks the mode: a quote starts a
   * string, a letter or a parenthesis an identifier, a digit a number; any
   * other character is an error, and the end of the input gives the EOF token.
   */
  lemma StartDispatch(c: Config, l: Lex, q: nat)
    requires l.pos <= q <= |c.src| && AllSeparators(c.src[l.pos..q])
    ensures var m := l.(pos := q);
      && (q < |c.src| && IsQuote(c.src[q]) ==> LexToken(c, l) == LexString(c, m))
      && (q < |c.src| && (IsAsciiLetter(c.src[q]) || IsGroupChar(c.src[q])) ==> LexToken(c, l) == LexIdentifier(c, m))
      && (q < |c.src| && IsAsciiDigit(c.src[q]) ==> LexToken(c, l) == LexNumber(c, m))
      && (q < |c.src| && !IsSrlWhitespace(c.src[q]) && !IsQuote(c.src[q]) && !IsAsciiLetter(c.src[q]) &&
          !IsGroupChar(c.src[q]) && !IsAsciiDigit(c.src[q]) ==>
            LexToken(c, l) == Outcome(None, m.(state := Error)))
      && (q == |c.src| ==> LexToken(c, l) == Outcome(Some(EofToken()), m.(state := Done)))
  {
    TokenSkips(c, l, q);
  }
}
