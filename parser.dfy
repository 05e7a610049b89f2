/**
 * The parser: it drains the lexer into a list of expressions. Only
 * character tokens make expressions; `literally`, `one of` and `raw` take the
 * string token that follows them as their payload; every other token is
 * dropped, and the parse fails exactly when the lexer ends in its error mode.
 */
module SrlParser {
  import opened Wrappers
  import opened Tokens
  import opened SrlLexer
  import opened LexerFacts

  /** The payload of a character expression (`ast::Specification`). */
  datatype CharSpec = StringSpec(value: string)

  /** The expressions the parser builds: a character token with its optional payload. */
  datatype Expr = CharacterExpr(ty: Token, spec: Option<CharSpec>)

  /** What `parse_character` returns and the lexer it leaves. */
  datatype Parsed = Parsed(expr: Result<Expr>, after: Lex)

  /** The character kinds that need a string payload. */
  predicate TakesString(t: TokenType) {
    t in {Character(Literally), Character(OneOf), Character(Raw)}
  }

  /** `parse_character`, on the lexer's fields. */
  function ParseCharacterSpec(c: Config, tk: Token, l: Lex): Parsed {
    if TakesString(tk.ty) then
      var o := LexNext(c, l);
      if o.token.Some? && o.token.value.ty == StringValue then
        Parsed(Ok(CharacterExpr(tk, Some(StringSpec(o.token.value.val)))), o.after)
      else
        Parsed(Err, o.after)
    else if tk.ty.Character? then
      Parsed(Ok(CharacterExpr(tk, None)), l)
    else
      Parsed(Err, l)
  }

  /** One turn of the loop of `parse`, on a token `tk` just read. */
  function Handle(c: Config, tk: Token, l: Lex): Parsed {
    if tk.ty.Character? then ParseCharacterSpec(c, tk, l) else Parsed(Err, l)
  }

  function Push(ast: seq<Expr>, e: Result<Expr>): seq<Expr> {
    if e.Ok? then ast + [e.value] else ast
  }

  /** `parse_character` keeps the lexer quiet and never makes the measure larger. */
  lemma HandleKeepsQuiet(c: Config, tk: Token, l: Lex)
    requires Quiet(c, l)
    ensures Quiet(c, Handle(c, tk, l).after)
    ensures Measure(c, Handle(c, tk, l).after) <= Measure(c, l)
    ensures Handle(c, tk, l).expr.Ok? ==> Handle(c, tk, l).expr.value.ty == tk && tk.ty.Character?
  {
    NextKeepsQuiet(c, l);
  }

  /**
   * The loop of `parse`, on the lexer's fields: it reads tokens until the
   * lexer returns none and gives the expressions collected and the lexer left.
   */
  function Drain(c: Config, l: Lex, ast: seq<Expr>): (seq<Expr>, Lex)
    requires Quiet(c, l)
    decreases Measure(c, l)
  {
    NextKeepsQuiet(c, l);
    var o := LexNext(c, l);
    if o.token.None? then (ast, o.after)
    else
      HandleKeepsQuiet(c, o.token.value, o.after);
      var h := Handle(c, o.token.value, o.after);
      Drain(c, h.after, Push(ast, h.expr))
  }

  /** `parse`: the collected expressions, unless the lexer ended in error. */
  function ParseSpec(c: Config, l: Lex): Result<seq<Expr>>
    requires Quiet(c, l)
  {
    var (ast, f) := Drain(c, l, []);
    if f.state == Error then Err else Ok(ast)
  }

  // ---------------------------------------------------------------------------
  // A reference: the parse as a function of the token stream
  // ---------------------------------------------------------------------------

  /**
   * The expressions a token list stands for: a character kind that takes a
   * string is paired with the token after it, kept only when that token is
   * a string; any other character kind gives one expression; every other
   * token is dropped.
   */
  function Fold(ts: seq<Token>): seq<Expr> {
    if ts == [] then []
    else if TakesString(ts[0].ty) then
      if |ts| == 1 then []
      else
        (if ts[1].ty == StringValue then [CharacterExpr(ts[0], Some(StringSpec(ts[1].val)))] else []) +
        Fold(ts[2..])
    else if ts[0].ty.Character? then [CharacterExpr(ts[0], None)] + Fold(ts[1..])
    else Fold(ts[1..])
  }

  /**
   * What the folded list is made of: no more expressions than tokens, each
   * one built from a character token, with a payload exactly when its kind
   * takes a string, and the payload the value of a string token.
   */
  lemma {:induction false} FoldShape(ts: seq<Token>)
    ensures |Fold(ts)| <= |ts|
    ensures forall e | e in Fold(ts) ::
              e.ty in ts && e.ty.ty.Character? && (e.spec.Some? <==> TakesString(e.ty.ty))
    ensures forall e | e in Fold(ts) && e.spec.Some? ::
              StringToken(e.spec.value.value) in ts
    decreases |ts|
  {
    if ts != [] {
      if TakesString(ts[0].ty) {
        if |ts| > 1 {
          FoldShape(ts[2..]);
          if ts[1].ty == StringValue {
            assert ts[1] == StringToken(ts[1].val);
          }
          forall t | t in ts[2..] ensures t in ts {
          }
        }
      } else {
        FoldShape(ts[1..]);
        forall t | t in ts[1..] ensures t in ts {
        }
      }
    }
  }

  /** Tokens that are not characters add nothing. */
  lemma FoldDropsNonCharacters(ts: seq<Token>)
    requires forall i | 0 <= i < |ts| :: !ts[i].ty.Character?
    ensures Fold(ts) == []
  {
    if ts != [] {
      FoldDropsNonCharacters(ts[1..]);
    }
  }

  /** `Fold` on a list that starts with a kind that takes a string. */
  lemma FoldPair(tk: Token, v: Token, rest: seq<Token>)
    requires TakesString(tk.ty)
    ensures Fold([tk] + ([v] + rest)) ==
              (if v.ty == StringValue then [CharacterExpr(tk, Some(StringSpec(v.val)))] else []) + Fold(rest)
  {
    var ts := [tk] + ([v] + rest);
    assert ts[0] == tk && ts[1] == v && ts[2..] == rest;
  }

  /** `Fold` on a list that starts with any other token. */
  lemma FoldSingle(tk: Token, rest: seq<Token>)
    requires !TakesString(tk.ty)
    ensures Fold([tk] + rest) ==
              (if tk.ty.Character? then [CharacterExpr(tk, None)] else []) + Fold(rest)
  {
    var ts := [tk] + rest;
    assert ts[0] == tk && ts[1..] == rest;
  }

  /** The loop of `parse`, and the token stream, when the lexer returns nothing. */
  lemma DrainStop(c: Config, l: Lex, ast: seq<Expr>)
    requires Quiet(c, l) && LexNext(c, l).token.None?
    ensures Drain(c, l, ast) == (ast, LexNext(c, l).after)
    ensures TokenStream(c, l) == [] && Final(c, l) == LexNext(c, l).after
  {
  }

  /** One step of the token stream, on a token read. */
  lemma StreamUnroll(c: Config, l: Lex)
    requires Quiet(c, l) && LexNext(c, l).token.Some?
    ensures var o := LexNext(c, l);
      && Quiet(c, o.after) && Measure(c, o.after) < Measure(c, l)
      && TokenStream(c, l) == [o.token.value] + TokenStream(c, o.after)
      && Final(c, l) == Final(c, o.after)
  {
    NextKeepsQuiet(c, l);
  }

  /** One turn of the loop of `parse`, on a token read. */
  lemma DrainUnroll(c: Config, l: Lex, ast: seq<Expr>)
    requires Quiet(c, l) && LexNext(c, l).token.Some?
    ensures var o := LexNext(c, l); var h := Handle(c, o.token.value, o.after);
      && Quiet(c, h.after) && Measure(c, h.after) < Measure(c, l)
      && Drain(c, l, ast) == Drain(c, h.after, Push(ast, h.expr))
  {
    NextKeepsQuiet(c, l);
    var o := LexNext(c, l);
    HandleKeepsQuiet(c, o.token.value, o.after);
  }

  /**
   * A kind that takes a string, read when the lexer has nothing after it:
   * no expression is added and the loop stops where the token stream ends.
   */
  lemma MissingPayload(c: Config, l: Lex, ast: seq<Expr>)
    requires Quiet(c, l) && ParensKnown(c) && LexNext(c, l).token.Some?
    requires TakesString(LexNext(c, l).token.value.ty)
    requires LexNext(c, LexNext(c, l).after).token.None?
    ensures Drain(c, l, ast) == (ast + Fold(TokenStream(c, l)), Final(c, l))
  {
    DrainUnroll(c, l, ast);
    StreamUnroll(c, l);
    var o := LexNext(c, l);
    var tk := o.token.value;
    var h := Handle(c, tk, o.after);
    var o2 := LexNext(c, o.after);
    NextKeepsQuiet(c, o.after);
    DrainStop(c, o.after, ast);
    assert h == Parsed(Err, o2.after);
    assert Terminal(o2.after.state);
    NextKeepsQuiet(c, o2.after);
    DrainStop(c, o2.after, ast);
    assert TokenStream(c, l) == [tk] + [] == [tk];
    assert Fold([tk]) == [];
    assert ast + [] == ast;
  }

  /**
   * The parse is the fold of the token stream. When both parentheses are
   * keywords, the loop of `parse` appends `Fold(TokenStream(c, l))` to what it
   * had and leaves the lexer where the stream ends.
   */
  lemma {:induction false} DrainIsFold(c: Config, l: Lex, ast: seq<Expr>)
    requires Quiet(c, l) && ParensKnown(c)
    ensures Drain(c, l, ast) == (ast + Fold(TokenStream(c, l)), Final(c, l))
    decreases Measure(c, l), 1
  {
    var o := LexNext(c, l);
    if o.token.None? {
      DrainStop(c, l, ast);
      assert ast + [] == ast;
    } else if !TakesString(o.token.value.ty) {
      SingleStep(c, l, ast);
    } else {
      NextKeepsQuiet(c, l);
      if LexNext(c, o.after).token.None? {
        MissingPayload(c, l, ast);
      } else {
        PairStep(c, l, ast);
      }
    }
  }

  /** What one turn of the loop adds, for a kind that takes no string, is what `Fold` adds. */
  lemma SingleAlgebra(ast: seq<Expr>, tk: Token, rest: seq<Token>, e: Result<Expr>)
    requires !TakesString(tk.ty)
    requires e == if tk.ty.Character? then Ok(CharacterExpr(tk, None)) else Err
    ensures Push(ast, e) + Fold(rest) == ast + Fold([tk] + rest)
  {
    FoldSingle(tk, rest);
    var head := if tk.ty.Character? then [CharacterExpr(tk, None)] else [];
    assert Push(ast, e) == ast + head;
    assert ast + head + Fold(rest) == ast + (head + Fold(rest));
  }

  /** The same for a kind that takes a string, followed by the token `v`. */
  lemma PairAlgebra(ast: seq<Expr>, tk: Token, v: Token, rest: seq<Token>, e: Result<Expr>)
    requires TakesString(tk.ty)
    requires e == if v.ty == StringValue then Ok(CharacterExpr(tk, Some(StringSpec(v.val)))) else Err
    ensures Push(ast, e) + Fold(rest) == ast + Fold([tk] + ([v] + rest))
  {
    FoldPair(tk, v, rest);
    var head := if v.ty == StringValue then [CharacterExpr(tk, Some(StringSpec(v.val)))] else [];
    assert Push(ast, e) == ast + head;
    assert ast + head + Fold(rest) == ast + (head + Fold(rest));
  }

  /** `DrainIsFold` on a token whose kind takes no string. */
  lemma {:induction false} SingleStep(c: Config, l: Lex, ast: seq<Expr>)
    requires Quiet(c, l) && ParensKnown(c) && LexNext(c, l).token.Some?
    requires !TakesString(LexNext(c, l).token.value.ty)
    ensures Drain(c, l, ast) == (ast + Fold(TokenStream(c, l)), Final(c, l))
    decreases Measure(c, l), 0
  {
    DrainUnroll(c, l, ast);
    StreamUnroll(c, l);
    var o := LexNext(c, l);
    var tk := o.token.value;
    var h := Handle(c, tk, o.after);
    assert h == Parsed(if tk.ty.Character? then Ok(CharacterExpr(tk, None)) else Err, o.after);
    DrainIsFold(c, o.after, Push(ast, h.expr));
    SingleAlgebra(ast, tk, TokenStream(c, o.after), h.expr);
  }

  /** `parse_character` on a kind that takes a string, when the lexer has a token `v` after it. */
  lemma HandlePair(c: Config, tk: Token, l: Lex)
    requires TakesString(tk.ty) && LexNext(c, l).token.Some?
    ensures var o := LexNext(c, l); var v := o.token.value;
      Handle(c, tk, l) ==
        Parsed(if v.ty == StringValue then Ok(CharacterExpr(tk, Some(StringSpec(v.val)))) else Err, o.after)
  {
  }

  /** `DrainIsFold` on a kind that takes a string, followed by a token. */
  lemma {:induction false} PairStep(c: Config, l: Lex, ast: seq<Expr>)
    requires Quiet(c, l) && ParensKnown(c) && LexNext(c, l).token.Some?
    requires TakesString(LexNext(c, l).token.value.ty)
    requires LexNext(c, LexNext(c, l).after).token.Some?
    ensures Drain(c, l, ast) == (ast + Fold(TokenStream(c, l)), Final(c, l))
    decreases Measure(c, l), 0
  {
    DrainUnroll(c, l, ast);
    StreamUnroll(c, l);
    var o := LexNext(c, l);
    var tk := o.token.value;
    var o2 := LexNext(c, o.after);
    StreamUnroll(c, o.after);
    HandlePair(c, tk, o.after);
    var h := Handle(c, tk, o.after);
    DrainIsFold(c, o2.after, Push(ast, h.expr));
    PairAlgebra(ast, tk, o2.token.value, TokenStream(c, o2.after), h.expr);
  }

  /**
   * `parse` fails exactly when the lexer ended in its error mode, and
   * otherwise returns the fold of the token stream.
   */
  lemma ParseIsFold(c: Config, l: Lex)
    requires Quiet(c, l) && ParensKnown(c)
    ensures ParseSpec(c, l) == if Final(c, l).state == Error then Err else Ok(Fold(TokenStream(c, l)))
    ensures ParseSpec(c, l).Ok? ==> Final(c, l).state == Done
  {
    DrainIsFold(c, l, []);
    FinalIsTerminal(c, l);
    assert [] + Fold(TokenStream(c, l)) == Fold(TokenStream(c, l));
  }

  // ---------------------------------------------------------------------------
  // The parser object
  // ---------------------------------------------------------------------------

  class Parser {
    const lexer: Lexer
    var ast: seq<Expr>

    /** `Parser::new` */
    constructor (lexer: Lexer)
      ensures this.lexer == lexer && ast == []
    {
      this.lexer := lexer;
      ast := [];
    }

    /** `parse_character` */
    method ParseCharacter(tk: Token) returns (r: Result<Expr>)
      requires lexer.Valid()
      modifies lexer
      ensures lexer.Valid()
      ensures Parsed(r, lexer.Snap()) == ParseCharacterSpec(lexer.Cfg(), tk, old(lexer.Snap()))
    {
      if TakesString(tk.ty) {
        var val := lexer.Next();
        if val.Some? && val.value.ty == StringValue {
          r := Ok(CharacterExpr(tk, Some(StringSpec(val.value.val))));
        } else {
          r := Err;
        }
      } else if tk.ty.Character? {
        r := Ok(CharacterExpr(tk, None));
      } else {
        r := Err;
      }
    }

    /** `parse` */
    method Parse() returns (r: Result<seq<Expr>>)
      requires lexer.Valid() && Quiet(lexer.Cfg(), lexer.Snap())
      modifies this, lexer
      ensures (ast, lexer.Snap()) == Drain(lexer.Cfg(), old(lexer.Snap()), old(ast))
      ensures r == if lexer.IsError() then Err else Ok(ast)
    {
      var c := lexer.Cfg();
      ghost var goal := Drain(c, lexer.Snap(), ast);
      ghost var prev := lexer.Snap();
      var tk := lexer.Next();
      while tk.Some?
        invariant lexer.Valid() && Quiet(c, prev)
        invariant Outcome(tk, lexer.Snap()) == LexNext(c, prev)
        invariant Drain(c, prev, ast) == goal
        decreases Measure(c, prev)
      {
        NextKeepsQuiet(c, prev);
        HandleKeepsQuiet(c, tk.value, lexer.Snap());
        var expr: Result<Expr>;
        if tk.value.ty.Character? {
          expr := ParseCharacter(tk.value);
        } else {
          expr := Err;
        }
        if expr.Ok? {
          ast := ast + [expr.value];
        }
        prev := lexer.Snap();
        tk := lexer.Next();
      }
      NextKeepsQuiet(c, prev);
      if lexer.IsError() {
        r := Err;
      } else {
        r := Ok(ast);
      }
    }
  }
}
