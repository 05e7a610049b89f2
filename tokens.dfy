/**
 * Tokens as the lexer and the parser use them: a kind drawn from nested
 * classes (character atoms, quantifiers, range specifications, group words,
 * flags, anchors) or a value kind, plus the token's text.
 */
module Tokens {

  datatype Characters =
    | Literally | OneOf | Letter | UppercaseLetter | AnyCharacter | NoCharacter
    | Digit | Anything | NewLine | Whitespace | NoWhitespace | Tab | Raw

  datatype Quantifiers =
    | Exactly | Once | Twice | Between | Optional | OnceOrMore | NeverOrMore
    | AtLeast | And | Time | Times

  datatype Specifications = From | To

  datatype Groups =
    | Capture | As | AnyOf | Until | IfFollowedBy | IfNotFollowedBy
    | IfAlreadyHad | IfNotAlreadyHad | GroupStart | GroupEnd

  datatype Flags = CaseInsensitive | MultiLine | AllLazy

  datatype Anchors = BeginWith | MustEnd

  /** The kind of a token; the last five carry their payload in `val`. */
  datatype TokenType =
    | Character(character: Characters)
    | Quantifier(quantifier: Quantifiers)
    | Specification(specification: Specifications)
    | Group(group: Groups)
    | Flag(flag: Flags)
    | Anchor(anchor: Anchors)
    | StringValue
    | NumberValue
    | CharValue
    | DigitValue
    | Eof

  datatype Token = Token(val: string, ty: TokenType)

  /** The value tokens the lexer builds around a payload. */
  function StringToken(s: string): Token { Token(s, StringValue) }
  function NumberToken(s: string): Token { Token(s, NumberValue) }
  function CharToken(s: string): Token { Token(s, CharValue) }
  function DigitToken(s: string): Token { Token(s, DigitValue) }
  function EofToken(): Token { Token("eof", Eof) }
}
