/**
 * The earlier lexer (src/lexer.rs), which only knows identifier mode. It
 * differs from the current one in three ways the lemmas below pin down:
 * letters go into the buffer as written, not lower-cased; the separator that
 * ends a keyword is consumed with it; and at the end of the input the buffer
 * is not looked up at all, so the last word is never returned.
 */
module OldLexer {
  import opened Wrappers
  import opened SrlChar
  import Tokens

  /** All the modes the old lexer declares; `Start` is its `State::None`. */
  datatype State =
    | Character | Quantifier | Group | Lookaround | Flag | Anchor
    | SrcWhitespace | SrcNumber | SrcString | Delimiter | Undefined
    | Identifier | Number | String
    | Start | EndOfFile | Error

  datatype Config = Config(src: string, table: map<string, Tokens.Token>, maxSpcIndex: nat)

  datatype Lex = Lex(pos: nat, buffer: string, lastChar: char, state: State)

  datatype Outcome = Outcome(token: Option<Tokens.Token>, after: Lex)

  function Initial(): Lex {
    Lex(0, [], ' ', Start)
  }

  /**
   * `is_src_space`: in identifier mode a space is skipped while the buffer is
   * empty or after a space; a comma, newline or tab only while the buffer is empty.
   */
  predicate IsSrcSpace(l: Lex, ch: char) {
    if ch == ' ' then l.state == Identifier && (l.buffer == [] || l.lastChar == ' ')
    else if ch == ',' || ch == '\n' || ch == '\t' then l.state == Identifier && l.buffer == []
    else false
  }

  /** The loop of `next_identifier`; every character is consumed before it is looked at. */
  function IdentLoop(c: Config, l: Lex): Outcome
    decreases |c.src| - l.pos
  {
    if l.pos >= |c.src| then
      Outcome(None, l.(state := EndOfFile))
    else
      var ch := c.src[l.pos];
      var l1 := l.(pos := l.pos + 1);
      if IsSrcSpace(l, ch) then IdentLoop(c, l1)
      else if IsAsciiLetter(ch) then IdentLoop(c, l1.(buffer := l.buffer + [ch], lastChar := ch))
      else if IsSrlWhitespace(ch) then
        if l.buffer in c.table then Outcome(Some(c.table[l.buffer]), l1.(buffer := []))
        else if |l.buffer| < c.maxSpcIndex then IdentLoop(c, l1.(buffer := l.buffer + [' '], lastChar := ' '))
        else Outcome(None, l1.(state := Error))
      else
        Outcome(None, l1.(state := Error))
  }

  /** `next_identifier` */
  function LexIdentifier(c: Config, l: Lex): Outcome {
    IdentLoop(c, l.(state := Identifier))
  }

  /** `Iterator::next`: only the start and identifier modes read anything. */
  function LexNext(c: Config, l: Lex): Outcome {
    if l.state == Start || l.state == Identifier then LexIdentifier(c, l) else Outcome(None, l)
  }

  predicate AllLetters(w: string) {
    forall i | 0 <= i < |w| :: IsAsciiLetter(w[i])
  }

  // ---------------------------------------------------------------------------
  // Properties
  // ---------------------------------------------------------------------------

  /**
   * Every call either returns a keyword, having consumed at least the
   * separator after it and left identifier mode with an empty buffer, or
   * returns nothing and stops for good at the end of the input or in error.
   */
  lemma {:induction false} OldIdentProgress(c: Config, l: Lex)
    requires l.pos <= |c.src| && l.state == Identifier
    ensures var r := IdentLoop(c, l);
      && l.pos <= r.after.pos <= |c.src|
      && (r.token.Some? ==>
            r.after.pos > l.pos && r.after.buffer == [] && r.after.state == Identifier &&
            r.token.value in c.table.Values)
      && (r.token.None? ==> r.after.state in {EndOfFile, Error})
      && (r.after.state == EndOfFile ==> r.after.pos == |c.src|)
    decreases |c.src| - l.pos
  {
    if l.pos < |c.src| {
      var ch := c.src[l.pos];
      var l1 := l.(pos := l.pos + 1);
      if IsSrcSpace(l, ch) {
        OldIdentProgress(c, l1);
      } else if IsAsciiLetter(ch) {
        OldIdentProgress(c, l1.(buffer := l.buffer + [ch], lastChar := ch));
      } else if IsSrlWhitespace(ch) && l.buffer !in c.table && |l.buffer| < c.maxSpcIndex {
        OldIdentProgress(c, l1.(buffer := l.buffer + [' '], lastChar := ' '));
      }
    }
  }

  /** The same for a call of `next`; a call in any other mode returns nothing and changes nothing. */
  lemma OldNextProgress(c: Config, l: Lex)
    requires l.pos <= |c.src|
    ensures var r := LexNext(c, l);
      && (l.state !in {Start, Identifier} ==> r == Outcome(None, l))
      && (l.state in {Start, Identifier} ==>
            && l.pos <= r.after.pos <= |c.src|
            && (r.token.Some? ==> r.after.pos > l.pos && r.after.buffer == [] && r.after.state == Identifier)
            && (r.token.None? ==> r.after.state in {EndOfFile, Error}))
  {
    if l.state in {Start, Identifier} {
      OldIdentProgress(c, l.(state := Identifier));
    }
  }

  /** Separators before the first letter are skipped. */
  lemma {:induction false} OldSkipsSeparators(c: Config, l: Lex, q: nat)
    requires l.state == Identifier && l.buffer == []
    requires l.pos <= q <= |c.src| && AllSeparators(c.src[l.pos..q])
    ensures IdentLoop(c, l) == IdentLoop(c, l.(pos := q))
    decreases q - l.pos
  {
    if l.pos < q {
      assert IsSrlWhitespace(c.src[l.pos..q][0]);
      assert c.src[l.pos + 1..q] == c.src[l.pos..q][1..];
      OldSkipsSeparators(c, l.(pos := l.pos + 1), q);
    }
  }

  /** Letters go into the buffer as written: the old lexer does not lower-case them. */
  lemma {:induction false} OldWordVerbatim(c: Config, l: Lex, q: nat)
    requires l.state == Identifier
    requires l.pos < q <= |c.src| && AllLetters(c.src[l.pos..q])
    ensures IdentLoop(c, l) ==
              IdentLoop(c, l.(pos := q, buffer := l.buffer + c.src[l.pos..q], lastChar := c.src[q - 1]))
    decreases q - l.pos
  {
    var ch := c.src[l.pos];
    assert IsAsciiLetter(c.src[l.pos..q][0]);
    var l1 := l.(pos := l.pos + 1, buffer := l.buffer + [ch], lastChar := ch);
    assert IsSrcSpace(l, ch) == false;
    assert IdentLoop(c, l) == IdentLoop(c, l1);
    if l.pos + 1 < q {
      assert c.src[l1.pos..q] == c.src[l.pos..q][1..];
      OldWordVerbatim(c, l1, q);
      assert l1.buffer + c.src[l1.pos..q] == l.buffer + c.src[l.pos..q];
    } else {
      assert c.src[l.pos..q] == [ch];
    }
  }

  /**
   * One word, after separators, ended by a separator: a keyword is returned
   * with the separator consumed and identifier mode kept; a miss below
   * `MAX_SPC_INDEX` goes on with a space appended; a longer miss is an error.
   */
  lemma OldKeyword(c: Config, l: Lex, k: nat, q: nat)
    requires l.buffer == []
    requires l.pos <= k < q < |c.src|
    requires AllSeparators(c.src[l.pos..k]) && AllLetters(c.src[k..q]) && IsSrlWhitespace(c.src[q])
    ensures var w := c.src[k..q]; var r := LexIdentifier(c, l);
      && (w in c.table ==> r == Outcome(Some(c.table[w]), Lex(q + 1, [], c.src[q - 1], Identifier)))
      && (w !in c.table && |w| < c.maxSpcIndex ==> r == IdentLoop(c, Lex(q + 1, w + [' '], ' ', Identifier)))
      && (w !in c.table && |w| >= c.maxSpcIndex ==> r.token == None && r.after.state == Error)
  {
    var w := c.src[k..q];
    var l0 := l.(state := Identifier);
    OldSkipsSeparators(c, l0, k);
    OldWordVerbatim(c, l0.(pos := k), q);
    assert [] + w == w;
    assert IsAsciiLetter(c.src[q - 1]) by {
      assert c.src[q - 1] == w[q - 1 - k];
    }
    OldWordEnd(c, Lex(q, w, c.src[q - 1], Identifier));
  }

  /** A separator right after a letter ends the word. */
  lemma OldWordEnd(c: Config, m: Lex)
    requires m.state == Identifier && m.pos < |c.src| && IsSrlWhitespace(c.src[m.pos])
    requires m.buffer != [] && IsAsciiLetter(m.lastChar)
    ensures var r := IdentLoop(c, m);
      && (m.buffer in c.table ==> r == Outcome(Some(c.table[m.buffer]), m.(pos := m.pos + 1, buffer := [])))
      && (m.buffer !in c.table && |m.buffer| < c.maxSpcIndex ==>
            r == IdentLoop(c, m.(pos := m.pos + 1, buffer := m.buffer + [' '], lastChar := ' ')))
      && (m.buffer !in c.table && |m.buffer| >= c.maxSpcIndex ==> r.token == None && r.after.state == Error)
  {
    assert !IsSrcSpace(m, c.src[m.pos]);
  }

  /** At the end of the input the buffer is not looked up: nothing is returned. */
  lemma OldEndDropsWord(c: Config, l: Lex, k: nat)
    requires l.buffer == []
    requires l.pos <= k < |c.src|
    requires AllSeparators(c.src[l.pos..k]) && AllLetters(c.src[k..])
    ensures LexIdentifier(c, l) == Outcome(None, Lex(|c.src|, c.src[k..], c.src[|c.src| - 1], EndOfFile))
  {
    var l0 := l.(state := Identifier);
    OldSkipsSeparators(c, l0, k);
    assert c.src[k..|c.src|] == c.src[k..];
    OldWordVerbatim(c, l0.(pos := k), |c.src|);
    assert [] + c.src[k..] == c.src[k..];
  }

  /**
   * Separator runs are not collapsed: a comma after the space that follows
   * a word that is not a keyword adds a second space.
   */
  lemma OldCommaAfterSpace(c: Config, l: Lex)
    requires l.state == Identifier && l.pos < |c.src| && c.src[l.pos] == ','
    requires l.buffer != [] && l.lastChar == ' '
    requires l.buffer !in c.table && |l.buffer| < c.maxSpcIndex
    ensures IdentLoop(c, l) == IdentLoop(c, l.(pos := l.pos + 1, buffer := l.buffer + [' '], lastChar := ' '))
  {
  }

  /** Any character that is neither a letter nor a separator is consumed and the lexer fails. */
  lemma OldInvalidChar(c: Config, l: Lex)
    requires l.state == Identifier && l.pos < |c.src|
    requires !IsAsciiLetter(c.src[l.pos]) && !IsSrlWhitespace(c.src[l.pos])
    ensures IdentLoop(c, l) == Outcome(None, l.(pos := l.pos + 1, state := Error))
  {
  }

  /** After the end of the input or an error, the old lexer returns nothing, forever. */
  lemma OldTerminal(c: Config, l: Lex)
    requires l.state == EndOfFile || l.state == Error
    ensures LexNext(c, l) == Outcome(None, l)
  {
  }

  // ---------------------------------------------------------------------------
  // The lexer object
  // ---------------------------------------------------------------------------

  class Lexer {
    const src: string
    const table: map<string, Tokens.Token>
    const maxSpcIndex: nat
    var pos: nat
    var buffer: string
    var lastChar: char
    var state: State

    ghost predicate Valid()
      reads this
    {
      pos <= |src|
    }

    function Cfg(): Config {
      Config(src, table, maxSpcIndex)
    }

    function Snap(): Lex
      reads this
    {
      Lex(pos, buffer, lastChar, state)
    }

    /** `Lexer::new` */
    constructor (src: string, table: map<string, Tokens.Token>, maxSpcIndex: nat)
      ensures Valid()
      ensures Cfg() == Config(src, table, maxSpcIndex) && Snap() == Initial()
    {
      this.src := src;
      this.table := table;
      this.maxSpcIndex := maxSpcIndex;
      pos := 0;
      buffer := [];
      lastChar := ' ';
      state := Start;
    }

    /** `next_identifier` */
    method NextIdentifier() returns (t: Option<Tokens.Token>)
      requires Valid()
      modifies this
      ensures Valid()
      ensures Outcome(t, Snap()) == LexIdentifier(Cfg(), old(Snap()))
    {
      state := Identifier;
      ghost var goal := IdentLoop(Cfg(), Snap());
      while true
        invariant pos <= |src| && state == Identifier
        invariant IdentLoop(Cfg(), Snap()) == goal
        decreases |src| - pos
      {
        if pos >= |src| {
          state := EndOfFile;
          break;
        }
        var ch := src[pos];
        var before := Snap();
        pos := pos + 1;
        if IsSrcSpace(before, ch) {
          continue;
        }
        if IsAsciiLetter(ch) {
          buffer := buffer + [ch];
          lastChar := ch;
        } else if IsSrlWhitespace(ch) {
          if buffer in table {
            var token := table[buffer];
            buffer := [];
            return Some(token);
          } else if |buffer| < maxSpcIndex {
            buffer := buffer + [' '];
            lastChar := ' ';
          } else {
            state := Error;
            break;
          }
        } else {
          state := Error;
          break;
        }
      }
      return None;
    }

    /** `Iterator::next` */
    method Next() returns (t: Option<Tokens.Token>)
      requires Valid()
      modifies this
      ensures Valid()
      ensures Outcome(t, Snap()) == LexNext(Cfg(), old(Snap()))
    {
      if state == Start || state == Identifier {
        t := NextIdentifier();
      } else {
        t := None;
      }
    }
  }
}
