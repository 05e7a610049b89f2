/**
 * Keyword recognition in identifier mode.
 *
 * While it reads letters and separators, `next_identifier` keeps in its buffer
 * the canonical form of what it has read: letters lower-cased, separators
 * before the first letter dropped, and each run of separators after a word
 * turned into one space. `Squash` is that canonical form. The lexer looks the
 * buffer up in the keyword table at the end of every word, and returns the
 * first hit.
 */
module KeywordScan {
  import opened Wrappers
  import opened SrlChar
  import opened Tokens
  import opened SrlLexer

  /** The characters a multi-word keyword is spelled with. */
  predicate IsKeyChar(ch: char) {
    IsAsciiLetter(ch) || IsSrlWhitespace(ch)
  }

  /** The buffer ends with a letter, that is, a word has just been read. */
  predicate EndsInWord(b: string) {
    |b| > 0 && b[|b| - 1] != ' '
  }

  /** What reading one character does to the canonical form read so far. */
  function PushKey(b: string, ch: char): string {
    if IsAsciiLetter(ch) then b + [ToAsciiLower(ch)]
    else if IsSrlWhitespace(ch) && EndsInWord(b) then b + [' ']
    else b
  }

  function SquashFrom(b: string, s: string): string
    decreases |s|
  {
    if s == [] then b else SquashFrom(PushKey(b, s[0]), s[1..])
  }

  /** The canonical keyword spelled by `s`. */
  function Squash(s: string): string {
    SquashFrom([], s)
  }

  /** Only lower-case letters and single spaces, and no leading space. */
  predicate KeyShaped(b: string) {
    && (forall i | 0 <= i < |b| :: b[i] == ' ' || 'a' <= b[i] <= 'z')
    && (|b| > 0 ==> b[0] != ' ')
    && (forall i | 0 <= i < |b| - 1 :: b[i] == ' ' ==> b[i + 1] != ' ')
  }

  /** The letters of a buffer, spaces removed. */
  function Unspaced(b: string): string {
    if b == [] then []
    else Unspaced(b[..|b| - 1]) + (if b[|b| - 1] == ' ' then [] else [b[|b| - 1]])
  }

  /** The letters of the input, lower-cased, everything else removed. */
  function LowerLetters(s: string): string {
    if s == [] then []
    else (if IsAsciiLetter(s[0]) then [ToAsciiLower(s[0])] else []) + LowerLetters(s[1..])
  }

  /** Two characters that a keyword cannot tell apart. */
  predicate SameKeyClass(x: char, y: char) {
    && IsAsciiLetter(x) == IsAsciiLetter(y)
    && IsSrlWhitespace(x) == IsSrlWhitespace(y)
    && (IsAsciiLetter(x) ==> ToAsciiLower(x) == ToAsciiLower(y))
  }

  // ---------------------------------------------------------------------------
  // The canonical form
  // ---------------------------------------------------------------------------

  /** The buffer only ever holds lower-case letters and single spaces. */
  lemma {:induction false} SquashShape(b: string, s: string)
    requires KeyShaped(b)
    ensures KeyShaped(SquashFrom(b, s))
    decreases |s|
  {
    if s != [] {
      var b' := PushKey(b, s[0]);
      assert KeyShaped(b') by {
        if b' != b {
          assert b' == b + [b'[|b'| - 1]];
          assert b'[|b'| - 1] == ' ' ==> EndsInWord(b);
          forall i | 0 <= i < |b'| - 1
            ensures b'[i] == ' ' ==> b'[i + 1] != ' '
          {
            if i < |b| - 1 {
              assert b'[i] == b[i] && b'[i + 1] == b[i + 1];
            }
          }
        }
      }
      SquashShape(b', s[1..]);
    }
  }

  /** The letters read are kept in order, lower-cased. */
  lemma {:induction false} SquashKeepsLetters(b: string, s: string)
    ensures Unspaced(SquashFrom(b, s)) == Unspaced(b) + LowerLetters(s)
    decreases |s|
  {
    if s != [] {
      var b' := PushKey(b, s[0]);
      if IsAsciiLetter(s[0]) {
        assert b'[..|b'| - 1] == b;
        assert Unspaced(b') == Unspaced(b) + [ToAsciiLower(s[0])];
      } else if b' != b {
        assert b'[..|b'| - 1] == b;
        assert Unspaced(b') == Unspaced(b);
      }
      SquashKeepsLetters(b', s[1..]);
      assert LowerLetters(s) == (if IsAsciiLetter(s[0]) then [ToAsciiLower(s[0])] else []) + LowerLetters(s[1..]);
    }
  }

  lemma {:induction false} SquashFromAppend(b: string, x: string, y: string)
    ensures SquashFrom(b, x + y) == SquashFrom(SquashFrom(b, x), y)
    decreases |x|
  {
    if x != [] {
      assert (x + y)[0] == x[0] && (x + y)[1..] == x[1..] + y;
      SquashFromAppend(PushKey(b, x[0]), x[1..], y);
    } else {
      assert x + y == y;
    }
  }

  /** A run of separators adds one space after a word, and nothing anywhere else. */
  lemma {:induction false} SeparatorRun(b: string, r: string)
    requires |r| > 0 && AllSeparators(r)
    ensures SquashFrom(b, r) == if EndsInWord(b) then b + [' '] else b
    decreases |r|
  {
    var b' := PushKey(b, r[0]);
    assert IsSrlWhitespace(r[0]) && !IsAsciiLetter(r[0]);
    if |r| > 1 {
      SeparatorRun(b', r[1..]);
    } else {
      assert r[1..] == [];
    }
  }

  /**
   * Whitespace collapsing: replacing one non-empty run of separators by any
   * other does not change the keyword looked up.
   */
  lemma SeparatorRunsCollapse(a: string, r1: string, r2: string, z: string)
    requires |r1| > 0 && AllSeparators(r1)
    requires |r2| > 0 && AllSeparators(r2)
    ensures Squash(a + r1 + z) == Squash(a + r2 + z)
  {
    SquashFromAppend([], a + r1, z);
    SquashFromAppend([], a, r1);
    SquashFromAppend([], a + r2, z);
    SquashFromAppend([], a, r2);
    SeparatorRun(Squash(a), r1);
    SeparatorRun(Squash(a), r2);
  }

  /**
   * Keywords are case-insensitive: two inputs whose characters agree up to
   * letter case and the choice of separator spell the same keyword.
   */
  lemma {:induction false} SquashIgnoresCase(b: string, s: string, t: string)
    requires |s| == |t|
    requires forall i | 0 <= i < |s| :: SameKeyClass(s[i], t[i])
    ensures SquashFrom(b, s) == SquashFrom(b, t)
    decreases |s|
  {
    if s != [] {
      assert PushKey(b, s[0]) == PushKey(b, t[0]) by {
        assert SameKeyClass(s[0], t[0]);
      }
      SquashIgnoresCase(PushKey(b, s[0]), s[1..], t[1..]);
    }
  }

  /** The spelling of the source's first test. */
  lemma SquashBegin()
    ensures Squash("bEgin") == "begin"
  {
    assert SquashFrom([], "bEgin") == SquashFrom("b", "Egin");
    assert SquashFrom("b", "Egin") == SquashFrom("be", "gin");
    assert SquashFrom("be", "gin") == SquashFrom("beg", "in");
    assert SquashFrom("beg", "in") == SquashFrom("begi", "n");
  }

  lemma SquashExample()
    ensures Squash("bEgin with") == "begin with"
  {
    SquashBegin();
    SquashFromAppend([], "bEgin", " with");
    assert "bEgin" + " with" == "bEgin with";
    assert SquashFrom("begin", " with") == SquashFrom("begin ", "with");
    assert SquashFrom("begin ", "with") == SquashFrom("begin w", "ith");
    assert SquashFrom("begin w", "ith") == SquashFrom("begin wi", "th");
    assert SquashFrom("begin wi", "th") == SquashFrom("begin wit", "h");
  }

  // ---------------------------------------------------------------------------
  // What the identifier loop does with a canonical form
  // ---------------------------------------------------------------------------

  /** `lastChar` records whether the buffer ends with the space just added. */
  predicate Consistent(b: string, lc: char) {
    b != [] ==> (IsSpace(lc) <==> b[|b| - 1] == ' ')
  }

  /** At a separator after a word, the buffer is not a keyword and is short enough to go on. */
  predicate NoHitAt(c: Config, b: string, ch: char) {
    IsSrlWhitespace(ch) && EndsInWord(b) ==> b !in c.table && |b| < c.maxSpcIndex
  }

  /**
   * Reading letters and separators without a hit leaves exactly the
   * canonical form of what was read in the buffer.
   */
  lemma {:induction false} ScanWords(c: Config, l: Lex, q: nat)
    requires l.state == Identifier
    requires l.pos <= q <= |c.src|
    requires Consistent(l.buffer, l.lastChar)
    requires forall j | l.pos <= j < q :: IsKeyChar(c.src[j])
    requires forall j | l.pos <= j < q :: NoHitAt(c, SquashFrom(l.buffer, c.src[l.pos..j]), c.src[j])
    ensures exists lc :: Consistent(SquashFrom(l.buffer, c.src[l.pos..q]), lc) &&
              IdentLoop(c, l) == IdentLoop(c, Lex(q, SquashFrom(l.buffer, c.src[l.pos..q]), lc, Identifier))
    decreases q - l.pos
  {
    if l.pos == q {
      assert c.src[l.pos..q] == [];
      assert SquashFrom(l.buffer, c.src[l.pos..q]) == l.buffer;
      assert Lex(q, l.buffer, l.lastChar, Identifier) == l;
      assert Consistent(l.buffer, l.lastChar);
    } else {
      var ch := c.src[l.pos];
      var b := l.buffer;
      assert c.src[l.pos..l.pos] == [];
      assert NoHitAt(c, b, ch);
      var l1 :=
        if SkipSpace(l) && IsSrlWhitespace(ch) then l.(pos := l.pos + 1)
        else if IsAsciiLetter(ch) then l.(pos := l.pos + 1, buffer := b + [ToAsciiLower(ch)], lastChar := ch)
        else l.(pos := l.pos + 1, buffer := b + [' '], lastChar := ' ');
      assert l1.buffer == PushKey(b, ch);
      assert IdentLoop(c, l) == IdentLoop(c, l1);
      assert Consistent(l1.buffer, l1.lastChar);
      forall j | l1.pos <= j <= q
        ensures SquashFrom(l1.buffer, c.src[l1.pos..j]) == SquashFrom(b, c.src[l.pos..j])
      {
        assert c.src[l.pos..j][0] == ch;
        assert c.src[l.pos..j][1..] == c.src[l1.pos..j];
      }
      ScanWords(c, l1, q);
    }
  }

  /**
   * The keyword theorem. Started with an empty buffer on letters and
   * separators that spell `key` (ending in a letter), with no earlier
   * keyword hit, identifier mode looks up `key` when it meets the next
   * separator, parenthesis or the end of the input:
   * - on a hit it returns that token, leaves the terminating character
   *   unread, empties the buffer and selects the mode from the token;
   * - at the end of the input a hit is returned and the lexer goes to
   *   `EndOfFile`, a miss is an error;
   * - a miss at a separator or a parenthesis once the buffer has reached
   *   `MAX_SPC_INDEX` is an error;
   * - a miss at a parenthesis below that length consumes the parenthesis
   *   like a separator and goes on.
   */
  lemma ScanKeyword(c: Config, l: Lex, q: nat)
    requires l.pos <= q <= |c.src| && l.buffer == []
    requires forall j | l.pos <= j < q :: IsKeyChar(c.src[j])
    requires forall j | l.pos <= j < q :: NoHitAt(c, Squash(c.src[l.pos..j]), c.src[j])
    requires EndsInWord(Squash(c.src[l.pos..q]))
    ensures var key := Squash(c.src[l.pos..q]); var r := LexIdentifier(c, l);
      && (key in c.table && q < |c.src| && (IsSrlWhitespace(c.src[q]) || IsGroupChar(c.src[q])) ==>
            r == Outcome(Some(c.table[key]), Lex(q, [], c.src[q], NextState(c.table[key].ty))))
      && (key in c.table && q == |c.src| ==>
            r.token == Some(c.table[key]) && r.after.pos == q && r.after.buffer == [] &&
            r.after.state == EndOfFile)
      && (key !in c.table && q == |c.src| ==> r.token == None && r.after.state == Error)
      && (key !in c.table && q < |c.src| && (IsSrlWhitespace(c.src[q]) || IsGroupChar(c.src[q])) &&
          |key| >= c.maxSpcIndex ==>
            r.token == None && r.after.state == Error)
      && (key !in c.table && q < |c.src| && IsGroupChar(c.src[q]) && |key| < c.maxSpcIndex ==>
            r == IdentLoop(c, Lex(q + 1, key + [' '], ' ', Identifier)))
  {
    var l0 := l.(state := Identifier);
    ScanWords(c, l0, q);
    var key := Squash(c.src[l.pos..q]);
    var lc :| Consistent(key, lc) && IdentLoop(c, l0) == IdentLoop(c, Lex(q, key, lc, Identifier));
  }

  /** Separators before the first letter are skipped without changing anything else. */
  lemma {:induction false} SkipLeadingSeparators(c: Config, l: Lex, q: nat)
    requires l.state == Identifier && l.buffer == []
    requires l.pos <= q <= |c.src|
    requires AllSeparators(c.src[l.pos..q])
    ensures IdentLoop(c, l) == IdentLoop(c, l.(pos := q))
    decreases q - l.pos
  {
    if l.pos < q {
      assert c.src[l.pos..q][0] == c.src[l.pos];
      assert c.src[l.pos + 1..q] == c.src[l.pos..q][1..];
      SkipLeadingSeparators(c, l.(pos := l.pos + 1), q);
    }
  }

  /**
   * With nothing but separators before it, a parenthesis is consumed and
   * returned as its own token (when the table has it) and the mode stays
   * identifier; the end of the input gives the EOF token and `Done`.
   */
  lemma ScanParenOrEnd(c: Config, l: Lex, q: nat)
    requires l.buffer == [] && l.pos <= q <= |c.src|
    requires AllSeparators(c.src[l.pos..q])
    ensures q < |c.src| && IsGroupChar(c.src[q]) ==>
              LexIdentifier(c, l) == Outcome(GetToken(c, [c.src[q]]), Lex(q + 1, [], c.src[q], Identifier))
    ensures q == |c.src| ==>
              LexIdentifier(c, l) == Outcome(Some(EofToken()), Lex(q, [], l.lastChar, Done))
  {
    SkipLeadingSeparators(c, l.(state := Identifier), q);
  }

  /** A character that is neither a letter, a separator nor a parenthesis is an error. */
  lemma ScanInvalidChar(c: Config, l: Lex, q: nat)
    requires l.pos <= q < |c.src| && l.buffer == []
    requires forall j | l.pos <= j < q :: IsKeyChar(c.src[j])
    requires forall j | l.pos <= j < q :: NoHitAt(c, Squash(c.src[l.pos..j]), c.src[j])
    requires !IsKeyChar(c.src[q]) && !IsGroupChar(c.src[q])
    ensures LexIdentifier(c, l).token == None && LexIdentifier(c, l).after.state == Error
  {
    var l0 := l.(state := Identifier);
    ScanWords(c, l0, q);
    var key := Squash(c.src[l.pos..q]);
    var lc :| Consistent(key, lc) && IdentLoop(c, l0) == IdentLoop(c, Lex(q, key, lc, Identifier));
  }

  /**
   * The source's first test: on "bEgin with capture (letter) twice" (or any
   * input that starts with "bEgin with "), with
   * "begin with" a keyword and "begin" not, the first token is "begin with"
   * and the space after it is left unread.
   */
  lemma BeginWithExample(c: Config)
    requires |c.src| > 10 && c.src[..11] == "bEgin with "
    requires "begin with" in c.table && "begin" !in c.table && c.maxSpcIndex > 5
    ensures var r := LexNext(c, Initial());
            r.token == Some(c.table["begin with"]) && r.after.pos == 10 && r.after.buffer == []
  {
    var l := Initial();
    BeginWithScan(c);
    ScanKeyword(c, l, 10);
    assert LexNext(c, l) == LexIdentifier(c, l) by {
      assert LexNext(c, l) == LexToken(c, l);
    }
  }

  /** The characters of "bEgin with " as the identifier loop sees them. */
  lemma BeginWithScan(c: Config)
    requires |c.src| > 10 && c.src[..11] == "bEgin with "
    requires "begin" !in c.table && c.maxSpcIndex > 5
    ensures forall j | 0 <= j < 10 :: IsKeyChar(c.src[j]) && NoHitAt(c, Squash(c.src[0..j]), c.src[j])
    ensures Squash(c.src[0..10]) == "begin with"
    ensures c.src[0] == 'b' && c.src[10] == ' '
  {
    BeginWithWords(c);
    forall j | 0 <= j < 10
      ensures IsKeyChar(c.src[j]) && NoHitAt(c, Squash(c.src[0..j]), c.src[j])
    {
      assert c.src[j] == c.src[..11][j];
      if j != 5 {
        assert IsAsciiLetter(c.src[j]) && !IsSrlWhitespace(c.src[j]);
      }
    }
    assert c.src[0] == c.src[..11][0];
    assert c.src[10] == c.src[..11][10];
  }

  /** The two words of "bEgin with " in canonical form. */
  lemma BeginWithWords(c: Config)
    requires |c.src| > 10 && c.src[..11] == "bEgin with "
    ensures Squash(c.src[0..5]) == "begin" && Squash(c.src[0..10]) == "begin with"
  {
    assert c.src[0..5] == c.src[..11][..5] == "bEgin";
    assert c.src[0..10] == c.src[..11][..10] == "bEgin with";
    SquashBegin();
    SquashExample();
  }

  /** "once" in canonical form. */
  lemma SquashOnce()
    ensures Squash("once") == "once"
  {
    assert SquashFrom([], "once") == SquashFrom("o", "nce");
    assert SquashFrom("o", "nce") == SquashFrom("on", "ce");
    assert SquashFrom("on", "ce") == SquashFrom("onc", "e");
  }

  /**
   * The first hit wins, not the longest keyword: on an input starting
   * "once ", the first token is "once" even when "once or more" is a keyword
   * too, and the cursor stops at the space after "once".
   */
  lemma OnceHidesLongerKeyword(c: Config)
    requires |c.src| > 4 && c.src[..5] == "once "
    requires "once" in c.table && "once or more" in c.table
    ensures var r := LexNext(c, Initial());
            r.token == Some(c.table["once"]) && r.after.pos == 4 && r.after.buffer == []
  {
    var l := Initial();
    OnceScan(c);
    ScanKeyword(c, l, 4);
    assert LexNext(c, l) == LexIdentifier(c, l) by {
      assert LexNext(c, l) == LexToken(c, l);
    }
  }

  /** The characters of "once " as the identifier loop sees them. */
  lemma OnceScan(c: Config)
    requires |c.src| > 4 && c.src[..5] == "once "
    ensures forall j | 0 <= j < 4 :: IsKeyChar(c.src[j]) && NoHitAt(c, Squash(c.src[0..j]), c.src[j])
    ensures Squash(c.src[0..4]) == "once"
    ensures c.src[0] == 'o' && c.src[4] == ' '
  {
    forall j | 0 <= j < 4
      ensures IsKeyChar(c.src[j]) && NoHitAt(c, Squash(c.src[0..j]), c.src[j])
    {
      assert c.src[j] == c.src[..5][j];
      assert IsAsciiLetter(c.src[j]) && !IsSrlWhitespace(c.src[j]);
    }
    assert c.src[0..4] == c.src[..5][..4] == "once";
    SquashOnce();
    assert c.src[0] == c.src[..5][0];
    assert c.src[4] == c.src[..5][4];
  }
}
