/** The tokens the parser and the semantic messenger read (DataStructures/Token.cs, DataStructures/TokenType.cs). */
module Tokens {

  datatype TokenType =
    | Keyword
    | Operator
    | Type
    | Identifier
    | Semicolon
    | AccessModifier
    | Value
    | OpenBracket
    | CloseBracket
    | Comma

  /** A token: its kind, its text and where it starts. */
  datatype Token = Token(tokenType: TokenType, value: string, columnNumber: int, lineNumber: int)
}
