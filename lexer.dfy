/**
 * The lexer (Lexer/Lexer.cs): the text is split at every space, each piece is trimmed, and a piece
 * that is not a reserved word is marked as an identifier with the prefix "ID ".
 */
module Lexing {
  import opened Text

  /** ReservedWords (Lexer/Lexer.cs:24-34). */
  const ReservedWords: set<string> := {"for", "int", "(", ")", "=", "<", "++", ";"}

  const IdPrefix: string := "ID "

  /** What the loop of Parse makes of one piece (Lexer/Lexer.cs:15-19). */
  function Lex(piece: string): string
  {
    var word := Trim(piece);
    if word in ReservedWords then word else IdPrefix + word
  }

  /** The lexeme marks an identifier. */
  predicate IsId(lexeme: string)
  {
    |lexeme| >= |IdPrefix| && lexeme[..|IdPrefix|] == IdPrefix
  }

  /** The word a lexeme stands for. */
  function WordOf(lexeme: string): string
  {
    if IsId(lexeme) then lexeme[|IdPrefix|..] else lexeme
  }

  /**
   * No reserved word looks like an identifier, so every lexeme says which of the two it is and
   * gives back the trimmed piece.
   */
  lemma LexRoundTrip(piece: string)
    ensures IsId(Lex(piece)) <==> Trim(piece) !in ReservedWords
    ensures !IsId(Lex(piece)) ==> Lex(piece) in ReservedWords
    ensures WordOf(Lex(piece)) == Trim(piece)
  {
    var word := Trim(piece);
    if word in ReservedWords {
      assert !IsId(word) by {
        assert |word| < |IdPrefix| || word[0] != 'I';
      }
    } else {
      assert (IdPrefix + word)[..|IdPrefix|] == IdPrefix;
      assert (IdPrefix + word)[|IdPrefix|..] == word;
    }
  }

  /** An empty or blank piece, as two adjacent spaces give, becomes an identifier with no name. */
  lemma BlankPiece(piece: string)
    requires IsBlank(piece)
    ensures Lex(piece) == IdPrefix
  {
  }

  /** A lexeme is a reserved word or "ID " followed by a name with no space and no whitespace at its ends. */
  lemma LexShape(piece: string)
    requires ' ' !in piece
    ensures Lex(piece) in ReservedWords || (IsId(Lex(piece)) && ' ' !in WordOf(Lex(piece)))
    ensures WordOf(Lex(piece)) != [] ==> !IsWhiteSpace(WordOf(Lex(piece))[0])
  {
    LexRoundTrip(piece);
    var i := TrimMiddle(piece);
    var word := Trim(piece);
    forall m | 0 <= m < |word|
      ensures word[m] != ' '
    {
      assert word[m] == piece[i..i + |word|][m] == piece[i + m];
    }
  }

  /** The body of the loop of Parse (Lexer/Lexer.cs:15-19): trim the piece, mark it unless it is reserved. */
  method LexPiece(piece: string) returns (word: string)
    ensures word == Lex(piece)
  {
    word := Trim(piece);
    if word !in ReservedWords {
      word := IdPrefix + word;
    }
  }

  /** Parse (Lexer/Lexer.cs:10-22): one lexeme per piece of the text split at spaces, in order. */
  method Parse(text: string) returns (words: array<string>)
    ensures words.Length == |Split(text, ' ')|
    ensures forall k :: 0 <= k < words.Length ==> words[k] == Lex(Split(text, ' ')[k])
  {
    var pieces := Split(text, ' ');
    words := new string[|pieces|](k requires 0 <= k < |pieces| => pieces[k]);
    for i := 0 to words.Length
      invariant forall k :: 0 <= k < i ==> words[k] == Lex(pieces[k])
      invariant forall k :: i <= k < words.Length ==> words[k] == pieces[k]
    {
      words[i] := LexPiece(words[i]);
    }
  }
}
