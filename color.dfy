/** The two sides of the game and their one-letter codes (src/noventagrados/util/Color.java). */
module Colores {
  import opened Opciones

  datatype Color = Blanco | Negro

  /** consultarContrario: the other side. */
  function Contrario(c: Color): (r: Color)
    ensures r != c
    ensures c == Blanco ==> r == Negro
    ensures c == Negro ==> r == Blanco
  {
    if c == Blanco then Negro else Blanco
  }

  /** Taking the contrary twice gives back the original side. */
  lemma ContrarioInvolucion(c: Color)
    ensures Contrario(Contrario(c)) == c
  {
  }

  /** toChar: the letter fixed by the enum constant. */
  function ToChar(c: Color): (ch: char)
    ensures (ch == 'B') == (c == Blanco)
    ensures (ch == 'N') == (c == Negro)
  {
    match c
    case Blanco => 'B'
    case Negro => 'N'
  }

  /** Reads a side back from its letter; the partner of ToChar. */
  function DesdeChar(ch: char): (r: Option<Color>)
    ensures r.Some? <==> (ch == 'B' || ch == 'N')
    ensures r.Some? ==> ToChar(r.value) == ch
  {
    if ch == 'B' then Some(Blanco)
    else if ch == 'N' then Some(Negro)
    else None
  }

  /** Reading back the letter of a value gives the value. */
  lemma IdaYVuelta(c: Color)
    ensures DesdeChar(ToChar(c)) == Some(c)
  {
  }

  /** Different sides have different letters. */
  lemma ToCharInyectivo(a: Color, b: Color)
    requires ToChar(a) == ToChar(b)
    ensures a == b
  {
    assert DesdeChar(ToChar(a)) == Some(a);
  }
}
