/** The state of one cell of the Othello board (Stone.java). */
module Stones {

  /** A closed three-valued variant: an empty cell or a stone of one colour. */
  datatype Stone = Empty | Black | White

  /** The other colour; Empty is its own opposite. */
  function Opposite(s: Stone): (r: Stone)
    ensures r == Empty <==> s == Empty
    ensures s != Empty ==> r != s
  {
    match s
    case Black => White
    case White => Black
    case Empty => Empty
  }

  /** Opposite undoes itself on all three values. */
  lemma OppositeInvolution(s: Stone)
    ensures Opposite(Opposite(s)) == s
  {
  }

  /** The display glyph of a cell: a black circle, a white circle, or a dot. */
  function ToChar(s: Stone): (c: char)
    ensures c == '\U{25CF}' <==> s == Black
    ensures c == '\U{25CB}' <==> s == White
    ensures c == '.' <==> s == Empty
  {
    match s
    case Black => '\U{25CF}'
    case White => '\U{25CB}'
    case Empty => '.'
  }

  /** Distinct cells are drawn with distinct glyphs. */
  lemma ToCharInjective(a: Stone, b: Stone)
    ensures ToChar(a) == ToChar(b) ==> a == b
  {
  }
}
