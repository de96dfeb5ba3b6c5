/** The two kinds of piece and their letters (src/noventagrados/util/TipoPieza.java). */
module TiposPieza {
  import opened Opciones

  /** Exactly two kinds exist: every piece is a pawn or a queen. */
  datatype TipoPieza = Peon | Reina

  /** toChar: 'P' for a pawn, 'R' for a queen. */
  function ToChar(t: TipoPieza): (ch: char)
    ensures (ch == 'P') == (t == Peon)
    ensures (ch == 'R') == (t == Reina)
  {
    match t
    case Peon => 'P'
    case Reina => 'R'
  }

  /** Reads a kind back from its letter; the partner of ToChar. */
  function DesdeChar(ch: char): (r: Option<TipoPieza>)
    ensures r.Some? <==> (ch == 'P' || ch == 'R')
    ensures r.Some? ==> ToChar(r.value) == ch
  {
    if ch == 'P' then Some(Peon)
    else if ch == 'R' then Some(Reina)
    else None
  }

  /** Reading back the letter of a value gives the value. */
  lemma IdaYVuelta(t: TipoPieza)
    ensures DesdeChar(ToChar(t)) == Some(t)
  {
  }

  /** Different kinds have different letters. */
  lemma ToCharInyectivo(a: TipoPieza, b: TipoPieza)
    requires ToChar(a) == ToChar(b)
    ensures a == b
  {
    assert DesdeChar(ToChar(a)) == Some(a);
  }
}
