/** Immutable pieces: a kind and a side (src/noventagrados/modelo/Pieza.java).
    The constructor's null checks are discharged by typing: a Pieza always has both. */
module Piezas {
  import opened Opciones
  import opened Colores
  import opened TiposPieza

  /** Two pieces are equal exactly when kind and side match (datatype equality). */
  datatype Pieza = Pieza(tipo: TipoPieza, color: Color)

  /** aTexto: the kind letter followed by the side letter, "PB", "RN", ... */
  function ATexto(p: Pieza): (s: string)
    ensures |s| == 2
  {
    [TiposPieza.ToChar(p.tipo), Colores.ToChar(p.color)]
  }

  /** Reads a piece back from its two-letter text; the partner of ATexto. */
  function DesdeTexto(s: string): (r: Option<Pieza>)
    ensures r.Some? ==> ATexto(r.value) == s
  {
    if |s| != 2 then None
    else
      match (TiposPieza.DesdeChar(s[0]), Colores.DesdeChar(s[1]))
      case (Some(t), Some(c)) => Some(Pieza(t, c))
      case _ => None
  }

  /** Reading back the text of a piece gives the piece. */
  lemma ATextoIdaYVuelta(p: Pieza)
    ensures DesdeTexto(ATexto(p)) == Some(p)
  {
    TiposPieza.IdaYVuelta(p.tipo);
    Colores.IdaYVuelta(p.color);
  }

  /** The text is injective over the four possible pieces. */
  lemma ATextoInyectivo(p: Pieza, q: Pieza)
    requires ATexto(p) == ATexto(q)
    ensures p == q
  {
    ATextoIdaYVuelta(p);
    ATextoIdaYVuelta(q);
  }

  /** Documented renderings: a white pawn is "PB" and a black queen is "RN". */
  lemma ATextoEjemplos()
    ensures ATexto(Pieza(Peon, Blanco)) == "PB"
    ensures ATexto(Pieza(Reina, Negro)) == "RN"
  {
  }
}
